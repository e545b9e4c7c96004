/** What templates compute, said without the evaluator's own tables: truth, operators, lookups, loops. */
module TemplateLaws {
  import opened Options
  import opened Json
  import opened Bytecodes
  import opened Templates
  import opened Compiler
  import opened Machine
  import opened Correctness

  // ----- Truth -----

  /** Which values a condition takes for true and for false, and which it cannot take. */
  lemma TruthExact(j: Json)
    ensures Truthy(j) == Some(true) <==> j == Bool(true) || j.String? || (j.Number? && j.n != 0.0)
    ensures Truthy(j) == Some(false) <==> j in {Null, Bool(false), Number(0.0), Array([]), Object(map[])}
    ensures Truthy(j) == None <==> (j.Array? && j.items != []) || (j.Object? && j.members != map[])
  {
  }

  /** What is rendered when the condition of a chain is false. */
  function Otherwise(env: Env, root: Json, data: Json, t: Tail): Output {
    match t
    case EndIf(_) => Output("", true)
    case Else(_, no, _) => Render(env, root, data, no)
    case ElseIf(_, next) => RenderChain(env, root, data, next)
  }

  /** A true condition renders the first branch, a false one what follows it. */
  lemma BranchTaken(env: Env, root: Json, data: Json, c: Chain, b: bool)
    requires Eval(env, root, data, c.cond) == Some(Bool(b))
    ensures RenderChain(env, root, data, c) == if b then Render(env, root, data, c.yes) else Otherwise(env, root, data, c.tail)
  {
    hide Eval, Render;
  }

  /** A number counts as true exactly when it is not 0, a text always does. */
  lemma OtherBranches(env: Env, root: Json, data: Json, c: Chain)
    ensures Eval(env, root, data, c.cond).Some? ==>
              var v := Eval(env, root, data, c.cond).value;
              && (v.String? || (v.Number? && v.n != 0.0) ==> RenderChain(env, root, data, c) == Render(env, root, data, c.yes))
              && (v.Null? || (v.Number? && v.n == 0.0) ==> RenderChain(env, root, data, c) == Otherwise(env, root, data, c.tail))
              && (v == Array([]) || v == Object(map[]) ==>
                    RenderChain(env, root, data, c) == Otherwise(env, root, data, c.tail))
              && (Truthy(v).None? ==> RenderChain(env, root, data, c) == Aborted)
  {
    hide Eval, Render;
  }

  /** `if`, text, `else`, text. */
  function Choice(cond: Expr, yes: string, no: string): Body {
    Cons(If(Block, Chain(cond, Cons(Text(yes), Nil), Else(Block, Cons(Text(no), Nil), Block))), Nil)
  }

  /** The compiled `if` prints its first text when the condition is true, and its second when it is false. */
  lemma ChoicePrints(env: Env, root: Json, cond: Expr, yes: string, no: string, b: bool) returns (steps: nat)
    requires Fits(env.pointerNotation, cond) && Eval(env, root, root, cond) == Some(Bool(b))
    ensures var code := BodyCode(env.pointerNotation, Choice(cond, yes, no), 0);
            var final := Run(env, root, code, Start, steps);
            Halted(code, final) && final.status.Running? && final.out == if b then yes else no
  {
    hide Run, Eval, Fits, BodyCode;
    var t := Choice(cond, yes, no);
    ChoiceFits(env.pointerNotation, cond, yes, no);
    ChoiceMeans(env, root, cond, yes, no, b);
    steps := CompiledMeansTemplate(env, root, t);
  }

  lemma ChoiceFits(pointer: bool, cond: Expr, yes: string, no: string)
    requires Fits(pointer, cond)
    ensures FitsBody(pointer, Choice(cond, yes, no))
  {
    hide Fits;
    TextFits(pointer, yes);
    TextFits(pointer, no);
    var tail := Else(Block, Cons(Text(no), Nil), Block);
    assert FitsTail(pointer, tail);
    assert FitsNode(pointer, If(Block, Chain(cond, Cons(Text(yes), Nil), tail)));
    assert FitsBody(pointer, Nil);
  }

  lemma TextFits(pointer: bool, text: string)
    ensures FitsBody(pointer, Cons(Text(text), Nil))
  {
    assert FitsBody(pointer, Nil);
  }

  lemma TextMeans(env: Env, root: Json, data: Json, text: string)
    ensures Render(env, root, data, Cons(Text(text), Nil)) == Output(text, true)
  {
    assert Render(env, root, data, Nil) == Output("", true);
    assert text + "" == text;
  }

  lemma ChoiceMeans(env: Env, root: Json, cond: Expr, yes: string, no: string, b: bool)
    requires Eval(env, root, root, cond) == Some(Bool(b))
    ensures Render(env, root, root, Choice(cond, yes, no)) == Output(if b then yes else no, true)
  {
    hide Eval;
    TextMeans(env, root, root, yes);
    TextMeans(env, root, root, no);
    var tail := Else(Block, Cons(Text(no), Nil), Block);
    var chain := Chain(cond, Cons(Text(yes), Nil), tail);
    BranchTaken(env, root, root, chain, b);
    assert RenderNode(env, root, root, If(Block, chain)) == RenderChain(env, root, root, chain);
    assert Render(env, root, root, Nil) == Output("", true);
    assert yes + "" == yes && no + "" == no;
  }

  // ----- Operators -----

  function One(op: Op, a: Expr): Expr { Operation(op, [a]) }
  function Two(op: Op, a: Expr, b: Expr): Expr { Operation(op, [a, b]) }

  lemma OneEval(env: Env, root: Json, data: Json, op: Op, a: Expr)
    requires Arity(op) == 1
    ensures Eval(env, root, data, One(op, a)) ==
            match Eval(env, root, data, a)
            case None => None
            case Some(v) => Apply(env, root, op, [v])
  {
    hide Apply, EvalAll;
    OneValue(env, root, data, a);
  }

  lemma OneValue(env: Env, root: Json, data: Json, a: Expr)
    ensures EvalAll(env, root, data, [a]) ==
            match Eval(env, root, data, a)
            case None => None
            case Some(v) => Some([v])
  {
    hide Eval;
    assert [a][..0] == [] && [a][0] == a;
    assert EvalAll(env, root, data, []) == Some([]);
    var v := Eval(env, root, data, a);
    if v.Some? { assert [] + [v.value] == [v.value]; }
  }

  lemma TwoEval(env: Env, root: Json, data: Json, op: Op, a: Expr, b: Expr)
    requires Arity(op) == 2 && !op.Default?
    ensures Eval(env, root, data, Two(op, a, b)) ==
            if Eval(env, root, data, a).None? || Eval(env, root, data, b).None? then None
            else Apply(env, root, op, [Eval(env, root, data, a).value, Eval(env, root, data, b).value])
  {
    hide Apply, EvalAll;
    BothEval(env, root, data, a, b);
  }

  lemma BothEval(env: Env, root: Json, data: Json, a: Expr, b: Expr)
    ensures EvalAll(env, root, data, [a, b]) ==
            if Eval(env, root, data, a).None? || Eval(env, root, data, b).None? then None
            else Some([Eval(env, root, data, a).value, Eval(env, root, data, b).value])
  {
    hide Eval;
    assert [a, b][..1] == [a] && [a, b][1] == b && [a][..0] == [] && [a][0] == a;
    assert EvalAll(env, root, data, []) == Some([]);
    var v, w := Eval(env, root, data, a), Eval(env, root, data, b);
    if v.Some? {
      assert [] + [v.value] == [v.value];
      assert EvalAll(env, root, data, [a]) == Some([v.value]);
      if w.Some? { assert [v.value] + [w.value] == [v.value, w.value]; }
    }
  }

  /**
   * `and` is true exactly when both arguments are, `or` exactly when one is and no container had to be judged before it;
   * the second argument is not judged when the first decides.
   */
  lemma AndOr(env: Env, root: Json, data: Json, a: Expr, b: Expr)
    requires Eval(env, root, data, a).Some? && Eval(env, root, data, b).Some?
    ensures var x, y := Truthy(Eval(env, root, data, a).value), Truthy(Eval(env, root, data, b).value);
            var conj, disj := Eval(env, root, data, Two(And, a, b)), Eval(env, root, data, Two(Or, a, b));
            && (conj == Some(Bool(true)) <==> x == Some(true) && y == Some(true))
            && (conj == Some(Bool(false)) <==> x == Some(false) || (x == Some(true) && y == Some(false)))
            && (disj == Some(Bool(true)) <==> x == Some(true) || (x == Some(false) && y == Some(true)))
            && (disj == Some(Bool(false)) <==> x == Some(false) && y == Some(false))
            && (conj.Some? ==> conj.value.Bool?) && (disj.Some? ==> disj.value.Bool?)
  {
    hide Truthy, Eval;
    TwoEval(env, root, data, And, a, b);
    TwoEval(env, root, data, Or, a, b);
  }

  /** `not` is the negation of what it stands before. */
  lemma NotExact(env: Env, root: Json, data: Json, a: Expr, t: bool)
    requires Eval(env, root, data, a).Some?
    ensures Eval(env, root, data, One(Not, a)) == Some(Bool(t)) <==> Truthy(Eval(env, root, data, a).value) == Some(!t)
    ensures Eval(env, root, data, One(Not, a)).Some? ==> Eval(env, root, data, One(Not, a)).value.Bool?
  {
    hide Eval, Truthy;
    OneEval(env, root, data, Not, a);
  }

  /** `==` compares values. */
  lemma EqualExact(env: Env, root: Json, data: Json, a: Expr, b: Expr)
    requires Eval(env, root, data, a).Some? && Eval(env, root, data, b).Some?
    ensures var r := Eval(env, root, data, Two(Equal, a, b));
            && (r == Some(Bool(true)) <==> Eval(env, root, data, a).value == Eval(env, root, data, b).value)
            && (r == Some(Bool(false)) <==> Eval(env, root, data, a).value != Eval(env, root, data, b).value)
  {
    hide Eval;
    TwoEval(env, root, data, Equal, a, b);
  }

  /** `!=` is the negation of `==`, whether or not the arguments have values. */
  lemma DifferentIsNotEqual(env: Env, root: Json, data: Json, a: Expr, b: Expr)
    ensures Eval(env, root, data, Two(Different, a, b)) == Eval(env, root, data, One(Not, Two(Equal, a, b)))
  {
    hide Eval;
    OneEval(env, root, data, Not, Two(Equal, a, b));
    TwoEval(env, root, data, Equal, a, b);
    TwoEval(env, root, data, Different, a, b);
  }

  /** `in` finds exactly the elements of a list and the values of an object's members. */
  lemma InExact(env: Env, root: Json, data: Json, a: Expr, b: Expr)
    requires Eval(env, root, data, a).Some? && Eval(env, root, data, b).Some?
    ensures var x, c := Eval(env, root, data, a).value, Eval(env, root, data, b).value;
            var r := Eval(env, root, data, Two(In, a, b));
            && r in {Some(Bool(true)), Some(Bool(false))}
            && (c.Array? ==> (r == Some(Bool(true)) <==> exists i :: 0 <= i < |c.items| && c.items[i] == x))
            && (c.Object? ==> (r == Some(Bool(true)) <==> x in c.members.Values))
            && (c.Null? ==> r == Some(Bool(false)))
            && (c.Bool? || c.Number? || c.String? ==> (r == Some(Bool(true)) <==> c == x))
  {
    hide Eval;
    TwoEval(env, root, data, In, a, b);
  }

  /** `exists` looks for a member of the root, `existsIn` for one of its first argument. */
  lemma ExistsExact(env: Env, root: Json, data: Json, a: Expr, b: Expr, name: string)
    requires Eval(env, root, data, b) == Some(String(name))
    ensures Eval(env, root, data, One(Exists, b)) == Some(Bool(root.Object? && name in root.members.Keys))
    ensures Eval(env, root, data, a).Some? ==>
              var o := Eval(env, root, data, a).value;
              Eval(env, root, data, Two(ExistsInObject, a, b)) == Some(Bool(o.Object? && name in o.members.Keys))
  {
    hide Eval;
    OneEval(env, root, data, Exists, b);
    TwoEval(env, root, data, ExistsInObject, a, b);
  }

  /** The one type test that a value passes; null passes none. */
  function TestFor(v: Json): Op {
    match v
    case Null => Nop
    case Bool(_) => IsBoolean
    case Number(_) => IsNumber
    case String(_) => IsString
    case Array(_) => IsArray
    case Object(_) => IsObject
  }

  lemma TypeTests(env: Env, root: Json, data: Json, op: Op, a: Expr)
    requires Eval(env, root, data, a).Some? && op in {IsBoolean, IsNumber, IsString, IsArray, IsObject}
    ensures Eval(env, root, data, One(op, a)) == Some(Bool(TestFor(Eval(env, root, data, a).value) == op))
  {
    hide Eval;
    OneEval(env, root, data, op, a);
  }

  predicate Outside(op: Op) {
    op in {Greater, GreaterEqual, Less, LessEqual, At, DivisibleBy, Round, Even, First, Float, Int, Last, Length, Lower,
           Max, Min, Odd, Range, Sort, Upper, IsInteger, IsFloat}
  }

  /** The order, the numbers and the texts are asked of the environment, with the arguments in the order they are written. */
  lemma OutsideInOrder(env: Env, root: Json, data: Json, op: Op, a: Expr, b: Expr)
    requires Outside(op) && Eval(env, root, data, a).Some? && Eval(env, root, data, b).Some?
    ensures Arity(op) == 1 ==> Eval(env, root, data, One(op, a)) == env.primitive(op, [Eval(env, root, data, a).value])
    ensures Arity(op) == 2 ==> Eval(env, root, data, Two(op, a, b)) ==
                               env.primitive(op, [Eval(env, root, data, a).value, Eval(env, root, data, b).value])
  {
    hide Eval;
    if Arity(op) == 1 { OneEval(env, root, data, op, a); } else { TwoEval(env, root, data, op, a, b); }
  }

  /** A callback gets its arguments in order, if one of that name and number is registered. */
  lemma CallbackInOrder(env: Env, root: Json, data: Json, name: string, a: Expr, b: Expr)
    requires Eval(env, root, data, a).Some? && Eval(env, root, data, b).Some?
    ensures Eval(env, root, data, Invoke(name, [a, b])) ==
            if env.has(name, 2) then env.call(name, [Eval(env, root, data, a).value, Eval(env, root, data, b).value]) else None
  {
    BothEval(env, root, data, a, b);
  }

  // ----- Printing -----

  /** A text is printed as it is, any other value as its JSON. */
  lemma PrintShows(env: Env, root: Json, data: Json, e: Expr, v: Json)
    requires Eval(env, root, data, e) == Some(v)
    ensures Render(env, root, data, Cons(Print(e), Nil)) == Output(if v.String? then v.s else env.dump(v), true)
  {
    hide Eval;
    assert Render(env, root, data, Nil) == Output("", true);
    var text := Shown(env, v);
    assert text + "" == text;
    assert RenderNode(env, root, data, Print(e)) == Output(text, true);
  }

  // ----- Lookups -----

  function DigitChar(d: nat): char
    requires d < 10
  {
    ['0', '1', '2', '3', '4', '5', '6', '7', '8', '9'][d]
  }

  function DecimalText(n: nat): (t: string)
    ensures t != ""
  {
    if n < 10 then [DigitChar(n)] else DecimalText(n / 10) + [DigitChar(n % 10)]
  }

  /** The number that `text` is the decimal text of. */
  ghost function NumberWritten(text: string): (r: Option<nat>)
    ensures r.Some? ==> DecimalText(r.value) == text
    ensures r.None? ==> forall n :: DecimalText(n) != text
  {
    if n: nat :| DecimalText(n) == text then Some(n) else None
  }

  /** The member of the member, the element of the list, and so on. */
  ghost function Follow(j: Json, path: seq<string>): Option<Json>
    decreases |path|
  {
    if path == [] then Some(j)
    else if j.Object? && path[0] in j.members then Follow(j.members[path[0]], path[1..])
    else
      var i :- NumberWritten(path[0]);
      if j.Array? && i < |j.items| then Follow(j.items[i], path[1..]) else None
  }

  function Joined(path: seq<string>, sep: char): string {
    if path == [] then "" else if |path| == 1 then path[0] else path[0] + [sep] + Joined(path[1..], sep)
  }

  /** A separator is no part of a part. */
  predicate Parts(path: seq<string>, sep: char) {
    path != [] && forall i :: 0 <= i < |path| ==> '/' !in path[i] && sep !in path[i]
  }

  lemma {:induction false} DecimalTextIs(n: nat)
    ensures Decimal(DecimalText(n)) == Some(n)
    ensures |DecimalText(n)| > 1 || n > 0 ==> DecimalText(n)[0] != '0'
    decreases n
  {
    var t := DecimalText(n);
    DigitIs(n % 10);
    if n < 10 {
      assert t == [DigitChar(n)] && t[..0] == "";
    } else {
      DecimalTextIs(n / 10);
      assert t[..|t| - 1] == DecimalText(n / 10);
    }
  }

  lemma DigitIs(d: nat)
    requires d < 10
    ensures '0' <= DigitChar(d) <= '9' && (DigitChar(d) - '0') as nat == d && (d > 0 ==> DigitChar(d) != '0')
  {
  }

  lemma DigitBack(c: char)
    requires '0' <= c <= '9'
    ensures (c - '0') as nat < 10 && DigitChar((c - '0') as nat) == c
  {
  }

  lemma {:induction false} DecimalBack(token: string)
    requires token != "" && Decimal(token).Some? && (|token| > 1 ==> token[0] != '0')
    ensures DecimalText(Decimal(token).value) == token
    decreases |token|
  {
    var front, c := token[..|token| - 1], token[|token| - 1];
    assert token == front + [c];
    DigitBack(c);
    if front != "" {
      DecimalBack(front);
    }
  }

  /** An element is asked for by exactly the decimal text of its index. */
  lemma IndexExact(token: string)
    ensures ArrayIndex(token) == NumberWritten(token)
  {
    var written := NumberWritten(token);
    if written.Some? { DecimalTextIs(written.value); }
    var read := ArrayIndex(token);
    if read.Some? {
      DecimalBack(token);
      DecimalTextIs(read.value);
    }
  }

  lemma FirstOf(text: string, c: char, i: nat)
    requires i < |text| && text[i] == c && c !in text[..i]
    ensures FindChar(text, c) == Some(i)
  {
    var r := FindChar(text, c);
    assert r.Some? by { assert text[i] in text; }
  }

  lemma NoneOf(text: string, c: char)
    requires c !in text
    ensures FindChar(text, c) == None
  {
    var r := FindChar(text, c);
  }

  lemma {:induction false} SplitJoined(path: seq<string>)
    requires Parts(path, '/')
    ensures Split(Joined(path, '/'), '/') == path
    decreases |path|
  {
    var head := path[0];
    if |path| == 1 {
      NoneOf(head, '/');
    } else {
      var text := head + ['/'] + Joined(path[1..], '/');
      assert text[..|head|] == head && text[|head| + 1..] == Joined(path[1..], '/');
      FirstOf(text, '/', |head|);
      SplitJoined(path[1..]);
    }
  }

  /** How a path may be written in dot notation: a last dot is dropped, so a last part that is empty needs one more. */
  predicate DotWritten(name: string, path: seq<string>)
    requires path != []
  {
    || name == Joined(path, '.') + "."
    || (name == Joined(path, '.') && (|path| == 1 || path[|path| - 1] != ""))
  }

  lemma {:induction false} PointerOf(name: string, path: seq<string>)
    requires Parts(path, '.') && DotWritten(name, path)
    ensures DotToPointer(name) == "/" + Joined(path, '/')
    decreases |path|
  {
    hide DotToPointer, DotWritten, Joined;
    var head := path[0];
    if |path| == 1 {
      OnePart(name, path);
    } else {
      DotBehind(name, path);
      PointerOf(name[|head| + 1..], path[1..]);
      PointerStep(name, head);
      JoinedStep(path);
      assert "/" + head + ("/" + Joined(path[1..], '/')) == "/" + (head + ['/'] + Joined(path[1..], '/'));
    }
  }

  lemma OnePart(name: string, path: seq<string>)
    requires Parts(path, '.') && DotWritten(name, path) && |path| == 1
    ensures DotToPointer(name) == "/" + Joined(path, '/')
  {
    var head := path[0];
    if name == head + "." {
      assert name[..|head|] == head;
      FirstOf(name, '.', |head|);
    } else {
      NoneOf(head, '.');
    }
  }

  lemma PointerStep(name: string, head: string)
    requires '.' !in head && |name| > |head| + 1 && name[..|head|] == head && name[|head|] == '.'
    ensures DotToPointer(name) == "/" + head + DotToPointer(name[|head| + 1..])
  {
    FirstOf(name, '.', |head|);
  }

  lemma JoinedStep(path: seq<string>)
    requires |path| > 1
    ensures Joined(path, '/') == path[0] + ['/'] + Joined(path[1..], '/')
  {
  }

  lemma DotBehind(name: string, path: seq<string>)
    requires Parts(path, '.') && DotWritten(name, path) && |path| > 1
    ensures |name| > |path[0]| && name[..|path[0]|] == path[0] && name[|path[0]|] == '.'
    ensures name[|path[0]| + 1..] != "" && DotWritten(name[|path[0]| + 1..], path[1..])
  {
    var head, rest := path[0], Joined(path[1..], '.');
    assert Joined(path, '.') == head + "." + rest;
    assert path[1..][|path| - 2] == path[|path| - 1];
    if name == Joined(path, '.') + "." {
      assert name[|head| + 1..] == rest + ".";
    } else {
      assert name[|head| + 1..] == rest;
      assert rest != "";
    }
  }

  lemma {:induction false} WalkFollows(j: Json, path: seq<string>)
    ensures Walk(j, path) == Follow(j, path)
    decreases |path|
  {
    if path != [] {
      IndexExact(path[0]);
      if j.Object? && path[0] in j.members {
        WalkFollows(j.members[path[0]], path[1..]);
      } else if j.Array? && ArrayIndex(path[0]).Some? && ArrayIndex(path[0]).value < |j.items| {
        WalkFollows(j.items[ArrayIndex(path[0]).value], path[1..]);
      }
    }
  }

  /** How a path is written in the notation of the environment. */
  predicate Written(env: Env, name: string, path: seq<string>) {
    if env.pointerNotation then Parts(path, '/') && name == Joined(path, '/') else Parts(path, '.') && DotWritten(name, path)
  }

  /**
   * A lookup finds the member of the member, the element of the list, and so on along its path; only what the data do not
   * have is asked of a callback without arguments, of the same name.
   */
  lemma LookupFollows(env: Env, root: Json, data: Json, name: string, path: seq<string>)
    requires Written(env, name, path)
    ensures Eval(env, root, data, Lookup(name)) ==
            match Follow(data, path)
            case Some(v) => Some(v)
            case None => if env.has(name, 0) then env.call(name, []) else None
  {
    hide Joined, Follow, Walk, Split, DotToPointer, DotWritten;
    assert Parts(path, '/');
    SplitJoined(path);
    if !env.pointerNotation { PointerOf(name, path); }
    WalkFollows(data, path);
    assert ("/" + Joined(path, '/'))[1..] == Joined(path, '/');
  }

  /** Every name without slashes is a path in dot notation. */
  lemma {:induction false} EveryNameWritten(name: string) returns (path: seq<string>)
    requires '/' !in name
    ensures Parts(path, '.') && DotWritten(name, path)
    decreases |name|
  {
    if i: nat :| i < |name| && name[i] == '.' && '.' !in name[..i] {
      var head, rest := name[..i], name[i + 1..];
      assert name == head + "." + rest;
      if rest == "" {
        path := [head];
      } else {
        var tail := EveryNameWritten(rest);
        path := [head] + tail;
        assert path[1..] == tail && Joined(path, '.') == head + "." + Joined(tail, '.');
        if rest == Joined(tail, '.') + "." { assert name == Joined(path, '.') + "."; }
      }
    } else {
      DotFirst(name);
      path := [name];
    }
  }

  lemma {:induction false} DotFirst(name: string)
    ensures '.' in name ==> exists i: nat :: i < |name| && name[i] == '.' && '.' !in name[..i]
  {
    if FindChar(name, '.').Some? { var i := FindChar(name, '.').value; }
  }

  // ----- Loops -----

  /** The data an iteration of a list loop sees. */
  lemma ItemBindings(base: Json, item: string, items: seq<Json>, k: nat)
    requires k < |items| && item != "loop" && BindItem(base, item, items, k).Some?
    ensures var data := BindItem(base, item, items, k).value;
            && Follow(data, [item]) == Some(items[k])
            && Follow(data, ["loop", "index"]) == Some(Number(k as real))
            && Follow(data, ["loop", "index1"]) == Some(Number((k + 1) as real))
            && Follow(data, ["loop", "is_first"]) == Some(Bool(k == 0))
            && Follow(data, ["loop", "is_last"]) == Some(Bool(k + 1 == |items|))
  {
    var data := BindItem(base, item, items, k).value;
    MemberOf(data, item);
    var loop := data.members["loop"];
    LoopMembers(Member(Put(base, item, items[k]).value, "loop"), k, |items|);
    InLoop(data, "index");
    InLoop(data, "index1");
    InLoop(data, "is_first");
    InLoop(data, "is_last");
  }

  /** What can hold a member: an object, or null, which becomes one. */
  predicate Holder(j: Json) { j.Null? || j.Object? }

  /** A loop throws exactly when the data, or a `loop` it would have to write into, is something else. */
  lemma BindingsExact(data: Json, item: string, items: seq<Json>, k: nat, key: string, entry: (string, Json))
    requires k < |items|
    ensures WithParent(data).Some? <==> !(data.Object? && "loop" in data.members && !Holder(data.members["loop"]))
    ensures BindItem(data, item, items, k).Some? <==>
            Holder(data) && if item == "loop" then Holder(items[k])
                            else !(data.Object? && "loop" in data.members && !Holder(data.members["loop"]))
    ensures BindEntry(data, key, item, entry).Some? <==> Holder(data)
  {
  }

  lemma LoopMembers(loop: Json, k: nat, size: nat)
    requires LoopInfo(loop, k, size).Some?
    ensures var info := LoopInfo(loop, k, size).value;
            && info.Object? && {"index", "index1", "is_first", "is_last"} <= info.members.Keys
            && info.members["index"] == Number(k as real) && info.members["index1"] == Number((k + 1) as real)
            && info.members["is_first"] == Bool(k == 0) && info.members["is_last"] == Bool(k + 1 == size)
            && (forall name :: name !in {"index", "index1", "is_first", "is_last"} ==>
                  (name in info.members <==> loop.Object? && name in loop.members)
                  && (name in info.members ==> info.members[name] == loop.members[name]))
  {
  }

  lemma MemberOf(data: Json, name: string)
    ensures data.Object? && name in data.members ==> Follow(data, [name]) == Some(data.members[name])
  {
    assert [name][1..] == [];
  }

  lemma InLoop(data: Json, name: string)
    requires data.Object? && "loop" in data.members && data.members["loop"].Object? && name in data.members["loop"].members
    ensures Follow(data, ["loop", name]) == Some(data.members["loop"].members[name])
  {
    assert ["loop", name][1..] == [name];
    MemberOf(data.members["loop"], name);
  }

  /** An enclosing loop's variables are found under `loop.parent`, in a list loop and in a loop over pairs. */
  lemma ParentLoop(data: Json, item: string, items: seq<Json>, k: nat, key: string, entry: (string, Json))
    requires Has(data, "loop") && WithParent(data).Some? && k < |items|
    requires item != "loop" && key != "loop"
    ensures var base, outer := WithParent(data).value, data.members["loop"];
            && (BindItem(base, item, items, k).Some? ==>
                  Follow(BindItem(base, item, items, k).value, ["loop", "parent"]) == Some(outer))
            && (BindEntry(base, key, item, entry).Some? ==>
                  Follow(BindEntry(base, key, item, entry).value, ["loop", "parent"]) == Some(outer))
  {
    var base, outer := WithParent(data).value, data.members["loop"];
    var inner := Put(outer, "parent", outer).value;
    assert base == Object(data.members["loop" := inner]) && inner.members["parent"] == outer;
    if BindItem(base, item, items, k).Some? {
      LoopMembers(Member(Put(base, item, items[k]).value, "loop"), k, |items|);
      InLoop(BindItem(base, item, items, k).value, "parent");
    }
    if BindEntry(base, key, item, entry).Some? { InLoop(BindEntry(base, key, item, entry).value, "parent"); }
  }

  /** The data an iteration of a loop over pairs sees. */
  lemma EntryBindings(base: Json, key: string, item: string, entry: (string, Json))
    requires key != item && BindEntry(base, key, item, entry).Some?
    ensures Follow(BindEntry(base, key, item, entry).value, [key]) == Some(String(entry.0))
    ensures Follow(BindEntry(base, key, item, entry).value, [item]) == Some(entry.1)
  {
    MemberOf(BindEntry(base, key, item, entry).value, key);
    MemberOf(BindEntry(base, key, item, entry).value, item);
  }

  /** Whatever a loop does not bind it leaves as it is. */
  lemma OthersStay(data: Json, item: string, items: seq<Json>, k: nat, key: string, entry: (string, Json), name: string)
    requires WithParent(data).Some? && k < |items| && name != item && name != key && name != "loop"
    requires data.Object?
    ensures var base := WithParent(data).value;
            && (BindItem(base, item, items, k).Some? ==>
                  Follow(BindItem(base, item, items, k).value, [name]) == Follow(data, [name]))
            && (BindEntry(base, key, item, entry).Some? ==>
                  Follow(BindEntry(base, key, item, entry).value, [name]) == Follow(data, [name]))
  {
    var base := WithParent(data).value;
    SameMember(data, base, name);
    if BindItem(base, item, items, k).Some? { SameMember(base, BindItem(base, item, items, k).value, name); }
    if BindEntry(base, key, item, entry).Some? { SameMember(base, BindEntry(base, key, item, entry).value, name); }
  }

  lemma SameMember(a: Json, b: Json, name: string)
    requires a.Object? && b.Object? && (name in a.members <==> name in b.members)
    requires name in a.members ==> a.members[name] == b.members[name]
    ensures Follow(a, [name]) == Follow(b, [name])
  {
    MemberOf(a, name);
    MemberOf(b, name);
  }

  /** Data in which a loop can keep its variables. */
  predicate TakesLoop(data: Json) {
    data.Object? && ("loop" in data.members ==> data.members["loop"].Null? || data.members["loop"].Object?)
  }

  function AllShown(env: Env, items: seq<Json>): string {
    if items == [] then "" else (if items[0].String? then items[0].s else env.dump(items[0])) + AllShown(env, items[1..])
  }

  /** A list loop that prints its item prints all items, in order. */
  lemma ForPrintsAll(env: Env, root: Json, data: Json, item: string, over: Expr, items: seq<Json>)
    requires TakesLoop(data) && item != "" && item != "loop" && '.' !in item && '/' !in item
    requires Eval(env, root, data, over) == Some(Array(items))
    ensures Render(env, root, data, Cons(ForItem(Block, item, over, Cons(Print(Lookup(item)), Nil), Block), Nil))
         == Output(AllShown(env, items), true)
  {
    hide Eval, RenderItems, WithParent, AllShown;
    var body := Cons(Print(Lookup(item)), Nil);
    var node := ForItem(Block, item, over, body, Block);
    if items == [] {
      NothingShown(env);
      assert RenderNode(env, root, data, node) == Output("", true);
    } else {
      BaseOf(data);
      var base := WithParent(data).value;
      ItemsPrinted(env, root, base, item, items, 0);
      assert items[0..] == items;
      assert RenderNode(env, root, data, node) == RenderItems(env, root, base, item, items, 0, body);
    }
    assert Render(env, root, data, Nil) == Output("", true);
    assert AllShown(env, items) + "" == AllShown(env, items);
  }

  lemma NothingShown(env: Env)
    ensures AllShown(env, []) == ""
  {
  }

  lemma BaseOf(data: Json)
    requires TakesLoop(data)
    ensures WithParent(data).Some? && TakesLoop(WithParent(data).value)
  {
  }

  lemma {:induction false} ItemsPrinted(env: Env, root: Json, base: Json, item: string, items: seq<Json>, k: nat)
    requires TakesLoop(base) && item != "" && item != "loop" && '.' !in item && '/' !in item && k <= |items|
    ensures RenderItems(env, root, base, item, items, k, Cons(Print(Lookup(item)), Nil))
         == Output(AllShown(env, items[k..]), true)
    decreases |items| - k
  {
    hide Eval, BindItem, Render;
    if k < |items| {
      BindsItem(base, item, items, k);
      var data := BindItem(base, item, items, k).value;
      ItemBindings(base, item, items, k);
      NameLooksUp(env, root, data, item, items[k]);
      PrintShows(env, root, data, Lookup(item), items[k]);
      ItemsPrinted(env, root, base, item, items, k + 1);
      assert items[k..][0] == items[k] && items[k..][1..] == items[k + 1..];
    }
  }

  lemma BindsItem(base: Json, item: string, items: seq<Json>, k: nat)
    requires TakesLoop(base) && item != "loop" && k < |items|
    ensures BindItem(base, item, items, k).Some? && BindItem(base, item, items, k).value.Object?
  {
  }

  /** A lookup by one plain name. */
  lemma NameLooksUp(env: Env, root: Json, data: Json, name: string, v: Json)
    requires name != "" && '.' !in name && '/' !in name && data.Object? && Follow(data, [name]) == Some(v)
    ensures Eval(env, root, data, Lookup(name)) == Some(v)
  {
    hide Eval;
    LookupFollows(env, root, data, name, [name]);
  }

  function AllPairs(env: Env, entries: seq<(string, Json)>): string {
    if entries == [] then ""
    else entries[0].0 + (if entries[0].1.String? then entries[0].1.s else env.dump(entries[0].1)) + AllPairs(env, entries[1..])
  }

  /** A loop over pairs that prints its key and its item prints every member's key and value, in the order of the keys. */
  lemma {:induction false} PairsPrinted(env: Env, root: Json, base: Json, key: string, item: string,
                                        entries: seq<(string, Json)>, k: nat)
    requires base.Object? && key != item && k <= |entries|
    requires key != "" && '.' !in key && '/' !in key && item != "" && '.' !in item && '/' !in item
    ensures RenderEntries(env, root, base, key, item, entries, k, Cons(Print(Lookup(key)), Cons(Print(Lookup(item)), Nil)))
         == Output(AllPairs(env, entries[k..]), true)
    decreases |entries| - k
  {
    hide Eval, BindEntry, Render;
    if k < |entries| {
      BindsEntry(base, key, item, entries[k]);
      var data := BindEntry(base, key, item, entries[k]).value;
      EntryBindings(base, key, item, entries[k]);
      NameLooksUp(env, root, data, key, String(entries[k].0));
      NameLooksUp(env, root, data, item, entries[k].1);
      TwoPrints(env, root, data, Lookup(key), Lookup(item), String(entries[k].0), entries[k].1);
      PairsPrinted(env, root, base, key, item, entries, k + 1);
      assert entries[k..][0] == entries[k] && entries[k..][1..] == entries[k + 1..];
    }
  }

  lemma BindsEntry(base: Json, key: string, item: string, entry: (string, Json))
    requires base.Object?
    ensures BindEntry(base, key, item, entry).Some? && BindEntry(base, key, item, entry).value.Object?
  {
  }

  lemma TwoPrints(env: Env, root: Json, data: Json, a: Expr, b: Expr, v: Json, w: Json)
    requires Eval(env, root, data, a) == Some(v) && Eval(env, root, data, b) == Some(w)
    ensures Render(env, root, data, Cons(Print(a), Cons(Print(b), Nil))) == Output(Shown(env, v) + Shown(env, w), true)
  {
    hide Eval, Shown;
    PrintShows(env, root, data, b, w) by { ShownIs(env, w); }
    ShownIs(env, w);
    assert RenderNode(env, root, data, Print(a)) == Output(Shown(env, v), true);
  }

  lemma ShownIs(env: Env, v: Json)
    ensures Shown(env, v) == if v.String? then v.s else env.dump(v)
  {
  }

  // ----- The order of keys -----

  /** `a` goes with `b` for `i` characters, and then ends or has the smaller character. */
  predicate FirstAt(a: string, b: string, i: nat) {
    && i <= |a| && i < |b| && a[..i] == b[..i] && (i == |a| || a[i] < b[i])
  }

  /** Keys are ordered as in a dictionary, by their characters' codes. */
  lemma {:induction false} KeyLessExact(a: string, b: string)
    ensures KeyLess(a, b) <==> exists i: nat :: FirstAt(a, b, i)
    decreases |a|
  {
    hide FirstAt;
    if a == "" || b == "" {
      EmptyFirst(a, b);
    } else {
      KeyLessExact(a[1..], b[1..]);
      FirstTail(a, b);
    }
  }

  lemma EmptyFirst(a: string, b: string)
    requires a == "" || b == ""
    ensures (exists i: nat :: FirstAt(a, b, i)) <==> a == "" && b != ""
  {
    if a == "" && b != "" { assert FirstAt(a, b, 0); }
  }

  lemma FirstTail(a: string, b: string)
    requires a != "" && b != ""
    ensures (exists i: nat :: FirstAt(a, b, i)) <==> a[0] < b[0] || (a[0] == b[0] && exists i: nat :: FirstAt(a[1..], b[1..], i))
  {
    forall i: nat | FirstAt(a, b, i) ensures a[0] < b[0] || (a[0] == b[0] && FirstAt(a[1..], b[1..], i - 1)) {
      if i > 0 {
        assert a[..i][0] == a[0] && b[..i][0] == b[0];
        assert a[1..][..i - 1] == a[..i][1..] && b[1..][..i - 1] == b[..i][1..];
      }
    }
    if a[0] < b[0] { assert FirstAt(a, b, 0); }
    if a[0] == b[0] {
      forall i: nat | FirstAt(a[1..], b[1..], i) ensures FirstAt(a, b, i + 1) {
        assert a[..i + 1] == [a[0]] + a[1..][..i] && b[..i + 1] == [b[0]] + b[1..][..i];
      }
    }
  }

  // ----- Which templates -----

  /** The expressions that a template prints, tests or goes through. */
  function BodyExprs(b: Body): set<Expr> {
    match b
    case Nil => {}
    case Cons(head, rest) => NodeExprs(head) + BodyExprs(rest)
  }

  function NodeExprs(n: Node): set<Expr> {
    match n
    case Text(_) => {}
    case Comment => {}
    case Print(e) => {e}
    case If(_, chain) => ChainExprs(chain)
    case ForItem(_, _, over, body, _) => {over} + BodyExprs(body)
    case ForEntry(_, _, _, over, body, _) => {over} + BodyExprs(body)
  }

  function ChainExprs(c: Chain): set<Expr> { {c.cond} + BodyExprs(c.yes) + TailExprs(c.tail) }

  function TailExprs(t: Tail): set<Expr> {
    match t
    case EndIf(_) => {}
    case Else(_, no, _) => BodyExprs(no)
    case ElseIf(_, next) => ChainExprs(next)
  }

  ghost predicate AllFit(pointer: bool, es: set<Expr>) { forall e :: e in es ==> Fits(pointer, e) }
  ghost predicate AllSound(pointer: bool, es: set<Expr>) { forall e :: e in es ==> Sound(pointer, e) }
  ghost predicate AllCompile(es: set<Expr>) { forall e :: e in es ==> Compiles(e) }

  /** A template fits, is sound, or compiles, exactly if each of its expressions does. */
  lemma {:induction false} EachExpression(pointer: bool, b: Body)
    ensures FitsBody(pointer, b) <==> AllFit(pointer, BodyExprs(b))
    ensures SoundBody(pointer, b) <==> AllSound(pointer, BodyExprs(b))
    ensures CompilesBody(b) <==> AllCompile(BodyExprs(b))
    decreases b
  {
    hide Fits, Sound, Compiles;
    if b.Cons? {
      EachInNode(pointer, b.head);
      EachExpression(pointer, b.rest);
    }
  }

  lemma {:induction false} EachInNode(pointer: bool, n: Node)
    ensures FitsNode(pointer, n) <==> AllFit(pointer, NodeExprs(n))
    ensures SoundNode(pointer, n) <==> AllSound(pointer, NodeExprs(n))
    ensures CompilesNode(n) <==> AllCompile(NodeExprs(n))
    decreases n
  {
    hide Fits, Sound, Compiles;
    match n
    case If(_, chain) => EachInChain(pointer, chain);
    case ForItem(_, _, _, body, _) => EachExpression(pointer, body);
    case ForEntry(_, _, _, _, body, _) => EachExpression(pointer, body);
    case _ =>
  }

  lemma {:induction false} EachInChain(pointer: bool, c: Chain)
    ensures FitsChain(pointer, c) <==> AllFit(pointer, ChainExprs(c))
    ensures SoundChain(pointer, c) <==> AllSound(pointer, ChainExprs(c))
    ensures CompilesChain(c) <==> AllCompile(ChainExprs(c))
    decreases c
  {
    hide Fits, Sound, Compiles;
    EachExpression(pointer, c.yes);
    match c.tail
    case EndIf(_) =>
    case Else(_, no, _) => EachExpression(pointer, no);
    case ElseIf(_, next) => EachInChain(pointer, next);
  }
}
