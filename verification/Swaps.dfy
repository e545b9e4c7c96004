/** What the swap that the parser makes for `default` does to the code around it. */
module Swaps {
  import opened Options
  import opened Json
  import opened Bytecodes
  import opened Templates
  import opened Compiler

  lemma {:induction false} ArgsCodeFront(pointer: bool, a: Expr, es: seq<Expr>)
    ensures ArgsCode(pointer, [a] + es) == ExprCode(pointer, a) + ArgsCode(pointer, es)
    decreases |es|
  {
    hide ExprCode, ArgsCode;
    if es == [] {
      assert [a] + es == [a];
      ArgsOfOne(pointer, a);
      NoCode(pointer);
    } else {
      var front := es[..|es| - 1];
      ArgsCodeFront(pointer, a, front);
      assert ([a] + es)[..|es|] == [a] + front;
      ArgsCodeIs(pointer, es);
      ArgsCodeIs(pointer, [a] + es);
    }
  }

  lemma ArgsCodeIs(pointer: bool, es: seq<Expr>)
    requires es != []
    ensures ArgsCode(pointer, es) == ArgsCode(pointer, es[..|es| - 1]) + ExprCode(pointer, es[|es| - 1])
  {
    hide ExprCode;
  }

  lemma NoCode(pointer: bool)
    ensures ArgsCode(pointer, []) == []
  {
  }

  lemma ArgsCodeLast(pointer: bool, es: seq<Expr>, k: nat)
    requires k < |es|
    ensures ArgsCode(pointer, es[..k + 1]) == ArgsCode(pointer, es[..k]) + ExprCode(pointer, es[k])
  {
    hide ExprCode, ArgsCode;
    assert es[..k + 1][..k] == es[..k];
    ArgsCodeIs(pointer, es[..k + 1]);
  }

  lemma LeafCode(pointer: bool, e: Expr)
    requires Leaf(e)
    ensures ExprCode(pointer, e) == [ExprCode(pointer, e)[0]] && ExprCode(pointer, e)[0].op.Push?
  {
  }

  predicate IsCall(e: Expr) {
    e.Invoke? || (e.Operation? && !e.op.Default? && |e.args| == Arity(e.op) > 0)
  }

  /** The code of a call: its instruction stands behind its arguments or takes the place of the last push. */
  lemma CallCode(pointer: bool, b: Expr)
    requires IsCall(b)
    ensures var code := ArgsCode(pointer, b.args);
            var fused := b.args != [] && if b.Invoke? then b.args[|b.args| - 1].Literal? else Leaf(b.args[|b.args| - 1]);
            var r := ExprCode(pointer, b);
            && (fused ==> |r| == |code| && r == code[|code| - 1 := r[|r| - 1]])
            && (!fused ==> |r| == |code| + 1 && r[..|code|] == code && r[|code|].flag.Pop?)
  {
    hide ArgsCode;
    assert b.args == [] ==> ArgsCode(pointer, b.args) == [] by { NoCode(pointer); }
  }

  /** A call behind which the swap moves an argument: that argument's push, then the call. */
  lemma RotatableCode(pointer: bool, b: Expr)
    requires IsCall(b) && Rotatable(b)
    ensures var k, code := Penultimate(b), ExprCode(pointer, b);
            code == ArgsCode(pointer, b.args[..k]) + ExprCode(pointer, Moved(b)) + [code[|code| - 1]]
  {
    hide ExprCode, ArgsCode;
    if Penultimate(b) == |b.args| - 2 { FusedCode(pointer, b); } else { UnfusedCode(pointer, b); }
  }

  lemma FusedCode(pointer: bool, b: Expr)
    requires IsCall(b) && |b.args| >= 2
    requires if b.Invoke? then b.args[|b.args| - 1].Literal? else Leaf(b.args[|b.args| - 1])
    ensures var m, code := |b.args|, ExprCode(pointer, b);
            code == ArgsCode(pointer, b.args[..m - 2]) + ExprCode(pointer, b.args[m - 2]) + [code[|code| - 1]]
  {
    hide ExprCode, ArgsCode;
    var m := |b.args|;
    CallCode(pointer, b);
    ArgsCodeLast(pointer, b.args, m - 2);
    ArgsCodeIs(pointer, b.args);
    LeafCode(pointer, b.args[m - 1]);
    ReplaceLast(ArgsCode(pointer, b.args[..m - 1]), ExprCode(pointer, b.args[m - 1])[0], ExprCode(pointer, b));
  }

  lemma ReplaceLast(front: Code, push: Bytecode, code: Code)
    requires |code| == |front| + 1 && code == (front + [push])[|front| := code[|front|]]
    ensures code == front + [code[|code| - 1]]
  {
  }

  lemma UnfusedCode(pointer: bool, b: Expr)
    requires b.Invoke? && b.args != [] && b.args[|b.args| - 1].Lookup?
    ensures var k, code := |b.args| - 1, ExprCode(pointer, b);
            code == ArgsCode(pointer, b.args[..k]) + ExprCode(pointer, b.args[k]) + [code[|code| - 1]]
  {
    hide ExprCode, ArgsCode;
    CallCode(pointer, b);
    ArgsCodeIs(pointer, b.args);
    var code := ExprCode(pointer, b);
    assert code == code[..|code| - 1] + [code[|code| - 1]];
  }

  /** The last instruction but one of a compiled expression is a push if and only if what it does is rotatable. */
  lemma PenultimatePush(pointer: bool, b: Expr)
    requires Compiles(b) && Actual(pointer, b).Some? && |ExprCode(pointer, b)| >= 2
    ensures var code := ExprCode(pointer, b);
            code[|code| - 2].op.Push? <==> Rotatable(Actual(pointer, b).value)
  {
    hide Compiles, ExprCode, Actual, Rotatable;
    LeafIsShort(pointer, b);
    if b.Operation? && b.op.Default? {
      DefaultHasTwo(b);
      DefaultPenultimate(pointer, b, b.args[0], b.args[1]);
    } else {
      CompiledIsCall(b);
      CallPenultimate(pointer, b);
    }
  }

  lemma LeafIsShort(pointer: bool, b: Expr)
    requires |ExprCode(pointer, b)| >= 2
    ensures !Leaf(b)
  {
  }

  lemma DefaultHasTwo(b: Expr)
    requires Compiles(b) && b.Operation? && b.op.Default?
    ensures b == Operation(Default, [b.args[0], b.args[1]]) && Compiles(b.args[0]) && Compiles(b.args[1])
  {
    assert b.args == [b.args[0], b.args[1]];
  }

  lemma CompiledIsCall(b: Expr)
    requires Compiles(b) && !Leaf(b) && !(b.Operation? && b.op.Default?)
    ensures IsCall(b)
  {
  }

  lemma CallActual(pointer: bool, b: Expr)
    requires IsCall(b)
    ensures Actual(pointer, b) == match ActualArgs(pointer, b.args)
                                  case None => None
                                  case Some(args) => Some(b.(args := args))
  {
    hide ActualArgs, ExprCode, Rotatable;
  }

  /** The actual arguments are leaves, literals and lookups where the written ones are. */
  lemma SameLeaves(pointer: bool, b: Expr)
    requires IsCall(b) && ActualArgs(pointer, b.args).Some?
    ensures var b' := b.(args := ActualArgs(pointer, b.args).value);
            && Penultimate(b') == Penultimate(b) && (Rotatable(b') <==> Rotatable(b))
            && (Rotatable(b) ==> Moved(b') == Moved(b))
  {
    hide Actual, ActualArgs;
    ActualArgsEach(pointer, b.args);
    forall i | 0 <= i < |b.args| ensures Leaf(b.args[i]) || Leaf(ActualArgs(pointer, b.args).value[i]) ==>
                                           ActualArgs(pointer, b.args).value[i] == b.args[i] {
      assert Actual(pointer, b.args[i]) == Some(ActualArgs(pointer, b.args).value[i]);
      LeavesStay(pointer, b.args[i]);
    }
  }

  lemma LeavesStay(pointer: bool, e: Expr)
    requires Actual(pointer, e).Some?
    ensures Leaf(e) || Leaf(Actual(pointer, e).value) ==> Actual(pointer, e).value == e
  {
  }

  lemma CallPenultimate(pointer: bool, b: Expr)
    requires IsCall(b) && Actual(pointer, b).Some? && |ExprCode(pointer, b)| >= 2
    ensures var code := ExprCode(pointer, b);
            code[|code| - 2].op.Push? <==> Rotatable(Actual(pointer, b).value)
  {
    hide *;
    CallActual(pointer, b);
    SameLeaves(pointer, b);
    WrittenPenultimate(pointer, b);
  }

  lemma WrittenPenultimate(pointer: bool, b: Expr)
    requires IsCall(b) && |ExprCode(pointer, b)| >= 2
    ensures var code := ExprCode(pointer, b); code[|code| - 2].op.Push? <==> Rotatable(b)
  {
    hide ExprCode, ArgsCode;
    CallCode(pointer, b);
    NoCode(pointer);
    var m := |b.args|;
    LastPush(pointer, b.args);
    if m > 0 && Leaf(b.args[m - 1]) {
      ArgsCodeIs(pointer, b.args);
      LeafCode(pointer, b.args[m - 1]);
      assert m == 1 ==> b.args[..m - 1] == [];
      LastPush(pointer, b.args[..m - 1]);
    }
  }

  lemma LastPush(pointer: bool, es: seq<Expr>)
    ensures var code := ArgsCode(pointer, es);
            es != [] ==> code != [] && (code[|code| - 1].op.Push? <==> Leaf(es[|es| - 1]))
  {
    hide ExprCode;
  }

  lemma DefaultActual(pointer: bool, a: Expr, b: Expr)
    ensures Actual(pointer, Operation(Default, [a, b])) ==
            if Actual(pointer, a).None? || Actual(pointer, b).None? then None
            else
              var a', b' := Actual(pointer, a).value, Actual(pointer, b).value;
              if |ExprCode(pointer, b)| == 1 then
                if Leaf(a) then Some(Operation(Default, [a', b'])) else None
              else if Rotatable(b') then Some(Operation(Default, [Moved(b'), Shifted(a', b')]))
              else None
  {
    hide Actual, ExprCode, Rotatable, ArgsCode;
    var es := [a, b];
    assert es[..1] == [a] && es[1] == b;
    assert [a][..0] == [] && [a][0] == a;
    var r := ActualArgs(pointer, es);
    ActualArgsEach(pointer, es);
    assert Actual(pointer, es[0]) == Actual(pointer, a) && Actual(pointer, es[1]) == Actual(pointer, b);
    if r.Some? { assert r.value == [r.value[0], r.value[1]]; }
    UnfoldDefault(pointer, es);
  }

  lemma UnfoldDefault(pointer: bool, es: seq<Expr>)
    requires |es| == 2
    ensures Actual(pointer, Operation(Default, es)) ==
            match ActualArgs(pointer, es)
            case None => None
            case Some(actual) =>
              if |ExprCode(pointer, es[1])| == 1 then if Leaf(es[0]) then Some(Operation(Default, actual)) else None
              else if Rotatable(actual[1]) then Some(Operation(Default, [Moved(actual[1]), Shifted(actual[0], actual[1])]))
              else None
  {
    hide ActualArgs, ExprCode, Rotatable;
  }

  lemma DefaultPenultimate(pointer: bool, e: Expr, a: Expr, b: Expr)
    requires e == Operation(Default, [a, b]) && Actual(pointer, e).Some?
    requires Compiles(b)
    ensures var code := ExprCode(pointer, e);
            |code| >= 2 && (code[|code| - 2].op.Push? <==> Rotatable(Actual(pointer, e).value))
  {
    hide Actual, ExprCode, ArgsCode, Compiles;
    DefaultActual(pointer, a, b);
    DefaultCode(pointer, a, b);
    var ca, cb := ExprCode(pointer, a), ExprCode(pointer, b);
    LeavesStay(pointer, b);
    FirstLeaf(pointer, b);
    if |cb| == 1 {
      LeafCode(pointer, a);
    }
  }

  lemma FirstLeaf(pointer: bool, b: Expr)
    ensures var cb := ExprCode(pointer, b); |cb| >= 1 && (cb[|cb| - 1].op.Push? <==> Leaf(b)) && (Leaf(b) ==> |cb| == 1)
  {
  }

  /** The swap exchanges the last two instructions, wherever they come from. */
  lemma DefaultCode(pointer: bool, a: Expr, b: Expr)
    ensures var ca, cb := ExprCode(pointer, a), ExprCode(pointer, b);
            && |ca + cb| >= 2
            && ExprCode(pointer, Operation(Default, [a, b])) == AppendFunction(SwapLastTwo(ca + cb), Default, 2)
  {
    hide ArgsCode, AppendFunction;
    ArgsOfTwo(pointer, a, b);
  }

  /** The swap behind a rotatable call: `a` joins the call's arguments and the moved one becomes the operand of `default`. */
  lemma RotatedCode(pointer: bool, a: Expr, b: Expr)
    requires IsCall(b) && Rotatable(b)
    ensures var ca, cb := ExprCode(pointer, a), ExprCode(pointer, b);
            ExprCode(pointer, Operation(Default, [a, b]))
            == ca + ArgsCode(pointer, b.args[..Penultimate(b)]) + [cb[|cb| - 1]]
               + [ExprCode(pointer, Moved(b))[0].(op := Default, args := 2)]
  {
    hide ExprCode, ArgsCode, AppendFunction;
    var ca, cb := ExprCode(pointer, a), ExprCode(pointer, b);
    DefaultCode(pointer, a, b);
    RotatableCode(pointer, b);
    LeafCode(pointer, Moved(b));
    Exchanged(ca + ArgsCode(pointer, b.args[..Penultimate(b)]), ExprCode(pointer, Moved(b))[0], cb[|cb| - 1]);
    Regroup(ca, ArgsCode(pointer, b.args[..Penultimate(b)]), ExprCode(pointer, Moved(b))[0], cb[|cb| - 1]);
  }

  lemma Regroup(a: Code, b: Code, x: Bytecode, y: Bytecode)
    ensures a + (b + [x] + [y]) == a + b + [x, y]
  {
  }

  lemma Exchanged(code: Code, push: Bytecode, bc: Bytecode)
    requires push.op.Push?
    ensures AppendFunction(SwapLastTwo(code + [push, bc]), Default, 2)
         == code + [bc] + [push.(op := Default, args := 2)]
  {
    assert SwapLastTwo(code + [push, bc]) == code + [bc, push];
  }

  /** `default(c, d)` on two leaves. */
  lemma TwoLeavesCode(pointer: bool, c: Expr, d: Expr)
    requires Leaf(c) && Leaf(d)
    ensures ExprCode(pointer, Operation(Default, [c, d]))
         == [ExprCode(pointer, d)[0], ExprCode(pointer, c)[0].(op := Default, args := 2)]
  {
    hide ExprCode, AppendFunction;
    DefaultCode(pointer, c, d);
    LeafCode(pointer, c);
    LeafCode(pointer, d);
    Exchanged([], ExprCode(pointer, c)[0], ExprCode(pointer, d)[0]);
    assert [] + [ExprCode(pointer, c)[0], ExprCode(pointer, d)[0]] == ExprCode(pointer, c) + ExprCode(pointer, d);
  }

  lemma RotatedDefaultCode(pointer: bool, a: Expr, c: Expr, d: Expr)
    requires Leaf(c) && Leaf(d)
    ensures ExprCode(pointer, Operation(Default, [a, Operation(Default, [c, d])]))
         == ExprCode(pointer, a) + [ExprCode(pointer, c)[0].(op := Default, args := 2)]
            + [ExprCode(pointer, d)[0].(op := Default, args := 2)]
  {
    hide ExprCode, AppendFunction;
    DefaultCode(pointer, a, Operation(Default, [c, d]));
    TwoLeavesCode(pointer, c, d);
    LeafCode(pointer, d);
    Exchanged(ExprCode(pointer, a), ExprCode(pointer, d)[0], ExprCode(pointer, c)[0].(op := Default, args := 2));
  }

  lemma RotatableDefault(pointer: bool, b: Expr)
    requires Compiles(b) && b.Operation? && b.op.Default?
    requires Actual(pointer, b).Some? && Rotatable(Actual(pointer, b).value)
    ensures b == Operation(Default, [b.args[0], b.args[1]]) && Leaf(b.args[0]) && Leaf(b.args[1])
    ensures Rotatable(b) && Moved(b) == b.args[1] && Actual(pointer, b).value == b
  {
    hide Actual, ExprCode, Compiles;
    DefaultHasTwo(b);
    DefaultActual(pointer, b.args[0], b.args[1]);
    LeavesStay(pointer, b.args[0]);
    LeavesStay(pointer, b.args[1]);
    LeafActual(pointer, b.args[0]);
  }

  // ----- Expressions that fit do what they say -----

  lemma SameLeafCode(pointer: bool, a: Expr, b: Expr)
    requires Leaf(a) && Leaf(b) && ExprCode(pointer, a)[0] == ExprCode(pointer, b)[0]
    ensures a == b
  {
  }

  /** Code of nothing but one push is that of the same leaf over and over. */
  lemma {:induction false} AllSame(pointer: bool, a: Expr, es: seq<Expr>)
    requires Leaf(a)
    requires forall i :: 0 <= i < |ArgsCode(pointer, es)| ==> ArgsCode(pointer, es)[i] == ExprCode(pointer, a)[0]
    ensures forall e :: e in es ==> e == a
    decreases |es|
  {
    hide ExprCode, ArgsCode;
    if es != [] {
      var last := es[|es| - 1];
      var code, front := ArgsCode(pointer, es), ArgsCode(pointer, es[..|es| - 1]);
      ArgsCodeIs(pointer, es);
      assert forall i :: 0 <= i < |front| ==> code[i] == front[i];
      AllSame(pointer, a, es[..|es| - 1]);
      FirstLeaf(pointer, last);
      LeafCode(pointer, a);
      assert code[|code| - 1] == ExprCode(pointer, last)[|ExprCode(pointer, last)| - 1];
      SameLeafCode(pointer, a, last);
      assert es == es[..|es| - 1] + [last];
    }
  }

  lemma {:induction false} FitsSound(pointer: bool, e: Expr)
    requires Fits(pointer, e)
    ensures Sound(pointer, e) && Actual(pointer, e) == Some(e)
    decreases e
  {
    hide ExprCode, Actual, ActualArgs, Rotatable, NoLiteralBeforeNullary, DefaultFits;
    if Leaf(e) {
      LeafActual(pointer, e);
    } else {
      forall i | 0 <= i < |e.args| ensures Counted(e.args[i]) && Actual(pointer, e.args[i]) == Some(e.args[i]) {
        FitsSound(pointer, e.args[i]);
      }
      if e.Operation? && e.op.Default? {
        assert e == Operation(Default, [e.args[0], e.args[1]]);
        FittingDefault(pointer, e.args[0], e.args[1]);
      } else {
        ActualArgsEach(pointer, e.args);
        assert ActualArgs(pointer, e.args).value == e.args;
        CallActual(pointer, e);
      }
    }
  }

  lemma LeafActual(pointer: bool, e: Expr)
    requires Leaf(e)
    ensures Actual(pointer, e) == Some(e)
  {
  }

  lemma FittingDefault(pointer: bool, a: Expr, b: Expr)
    requires Compiles(b) && DefaultFits(pointer, a, b)
    requires Actual(pointer, a) == Some(a) && Actual(pointer, b) == Some(b)
    requires CallsFit(pointer, b)
    ensures Actual(pointer, Operation(Default, [a, b])) == Some(Operation(Default, [a, b]))
  {
    hide ExprCode, Actual, Rotatable, Compiles, CallsFit;
    var cb := ExprCode(pointer, b);
    DefaultActual(pointer, a, b);
    FirstLeaf(pointer, b);
    if |cb| >= 2 {
      LeafCode(pointer, a);
      PenultimatePush(pointer, b);
      assert cb[|cb| - 2] == ExprCode(pointer, a)[0];
      if b.Operation? && b.op.Default? { MovedDefault(pointer, a, b); } else { CompiledIsCall(b); MovedCall(pointer, a, b); }
    }
  }

  lemma MovedDefault(pointer: bool, a: Expr, b: Expr)
    requires Compiles(b) && CallsFit(pointer, b) && b.Operation? && b.op.Default? && Rotatable(b)
    requires DefaultFits(pointer, a, b)
    ensures Moved(b) == a && Shifted(a, b) == b
  {
    hide ExprCode, NoLiteralBeforeNullary;
    var c, d := b.args[0], b.args[1];
    assert b.args == [c, d];
    TwoLeavesCode(pointer, c, d);
    assert ExprCode(pointer, b)[0] == ExprCode(pointer, d)[0];
    SameLeafCode(pointer, a, d);
  }

  lemma MovedCall(pointer: bool, a: Expr, b: Expr)
    requires IsCall(b) && Rotatable(b) && DefaultFits(pointer, a, b)
    ensures Moved(b) == a && Shifted(a, b) == b
  {
    hide ExprCode, ArgsCode;
    var k, cb := Penultimate(b), ExprCode(pointer, b);
    var front := b.args[..k];
    RotatableCode(pointer, b);
    LeafCode(pointer, Moved(b));
    assert cb[|cb| - 2] == ExprCode(pointer, Moved(b))[0];
    SameLeafCode(pointer, a, Moved(b));
    forall i | 0 <= i < |ArgsCode(pointer, front)| ensures ArgsCode(pointer, front)[i] == ExprCode(pointer, a)[0] {
      assert cb[i] == ArgsCode(pointer, front)[i];
    }
    AllSame(pointer, a, front);
    var args := b.args;
    assert [a] + front + args[k + 1..] == args by {
      forall i | 0 <= i < |args| ensures ([a] + front + args[k + 1..])[i] == args[i] {
        if 0 < i <= k { assert front[i - 1] in front; }
        if i < k { assert front[i] in front; }
      }
    }
  }

  lemma {:induction false} AllSameCode(pointer: bool, a: Expr, es: seq<Expr>)
    requires Leaf(a) && forall i :: 0 <= i < |es| ==> es[i] == a
    ensures forall i :: 0 <= i < |ArgsCode(pointer, es)| ==> ArgsCode(pointer, es)[i] == ExprCode(pointer, a)[0]
    decreases |es|
  {
    hide ExprCode, ArgsCode;
    NoCode(pointer);
    if es != [] {
      ArgsCodeIs(pointer, es);
      AllSameCode(pointer, a, es[..|es| - 1]);
      LeafCode(pointer, a);
    }
  }

  /** An expression fits exactly when what its code does is the expression itself. */
  lemma FitsExact(pointer: bool, e: Expr)
    ensures Fits(pointer, e) <==> Compiles(e) && Counted(e) && Actual(pointer, e) == Some(e)
  {
    hide Compiles, CallsFit, Counted, Actual;
    if Fits(pointer, e) { FitsSound(pointer, e); }
    if Compiles(e) && Counted(e) && Actual(pointer, e) == Some(e) { UnchangedFits(pointer, e); }
  }

  lemma {:induction false} UnchangedFits(pointer: bool, e: Expr)
    requires Compiles(e) && Counted(e) && Actual(pointer, e) == Some(e)
    ensures CallsFit(pointer, e)
    decreases e
  {
    hide ExprCode, Actual, ActualArgs, Rotatable, NoLiteralBeforeNullary, DefaultFits;
    if !Leaf(e) {
      if e.Operation? && e.op.Default? {
        assert e == Operation(Default, [e.args[0], e.args[1]]);
        UnchangedDefault(pointer, e.args[0], e.args[1]);
      } else {
        CompiledIsCall(e);
        CallActual(pointer, e);
        ActualArgsEach(pointer, e.args);
      }
      forall i | 0 <= i < |e.args| ensures CallsFit(pointer, e.args[i]) {
        UnchangedFits(pointer, e.args[i]);
      }
    }
  }

  lemma UnchangedDefault(pointer: bool, a: Expr, b: Expr)
    requires Compiles(b) && Actual(pointer, Operation(Default, [a, b])) == Some(Operation(Default, [a, b]))
    ensures Actual(pointer, a) == Some(a) && Actual(pointer, b) == Some(b) && DefaultFits(pointer, a, b)
  {
    hide ExprCode, Actual, Rotatable, Compiles;
    var e := Operation(Default, [a, b]);
    assert e.args[0] == a && e.args[1] == b;
    DefaultActual(pointer, a, b);
    FirstLeaf(pointer, b);
    var a', b' := Actual(pointer, a).value, Actual(pointer, b).value;
    if |ExprCode(pointer, b)| == 1 {
      LeafActual(pointer, a);
      assert [a', b'] == [a, b];
    } else {
      assert [Moved(b'), Shifted(a', b')] == [a, b];
      LeafActual(pointer, a);
      if b.Operation? && b.op.Default? {
        RotatableDefault(pointer, b);
        UnchangedPair(pointer, a, b);
      } else {
        CompiledIsCall(b);
        UnchangedCall(pointer, a, b);
      }
    }
  }

  lemma UnchangedPair(pointer: bool, a: Expr, b: Expr)
    requires b.Operation? && b.op.Default? && |b.args| == 2 && Leaf(b.args[0]) && Leaf(b.args[1]) && Moved(b) == a
    ensures DefaultFits(pointer, a, b)
  {
    hide ExprCode;
    assert b == Operation(Default, [b.args[0], b.args[1]]);
    TwoLeavesCode(pointer, b.args[0], b.args[1]);
  }

  lemma UnchangedCall(pointer: bool, a: Expr, b: Expr)
    requires IsCall(b) && Leaf(a) && Actual(pointer, b).Some? && Rotatable(Actual(pointer, b).value)
    requires Moved(Actual(pointer, b).value) == a && Shifted(a, Actual(pointer, b).value) == b
    ensures Actual(pointer, b) == Some(b) && DefaultFits(pointer, a, b)
  {
    hide ExprCode, Actual, ActualArgs, Rotatable, DefaultFits;
    CallActual(pointer, b);
    SameLeaves(pointer, b);
    ActualArgsEach(pointer, b.args);
    ArgsStay(pointer, a, b, ActualArgs(pointer, b.args).value);
    SameArgsFit(pointer, a, b);
  }

  lemma ArgsStay(pointer: bool, a: Expr, b: Expr, actual: seq<Expr>)
    requires IsCall(b) && Rotatable(b) && Leaf(a) && |actual| == |b.args| && Moved(b) == a
    requires forall j :: 0 <= j < |b.args| ==> Actual(pointer, b.args[j]) == Some(actual[j])
    requires b.args == [a] + actual[..Penultimate(b)] + actual[Penultimate(b) + 1..]
    ensures actual == b.args && forall j :: 0 <= j <= Penultimate(b) ==> b.args[j] == a
  {
    hide Actual, ActualArgs;
    Repeated(pointer, a, b.args, actual, Penultimate(b));
  }

  lemma SameArgsFit(pointer: bool, a: Expr, b: Expr)
    requires IsCall(b) && Rotatable(b) && Leaf(a) && Moved(b) == a
    requires forall j :: 0 <= j < Penultimate(b) ==> b.args[j] == a
    ensures DefaultFits(pointer, a, b)
  {
    hide ExprCode, ArgsCode, Rotatable;
    RotatableCode(pointer, b);
    PenultimateInside(b);
    AllSameCode(pointer, a, b.args[..Penultimate(b)]);
    LeafCode(pointer, a);
  }

  lemma PenultimateInside(b: Expr)
    requires IsCall(b) && Rotatable(b)
    ensures 0 <= Penultimate(b) < |b.args|
  {
  }

  /** Each argument up to the moved one is the actual form of the one before it, which is `a` again. */
  lemma {:induction false} Repeated(pointer: bool, a: Expr, args: seq<Expr>, actual: seq<Expr>, i: nat)
    requires Leaf(a) && |args| == |actual| && i < |args|
    requires forall j :: 0 <= j < |args| ==> Actual(pointer, args[j]) == Some(actual[j])
    requires args[0] == a && forall j :: 0 < j <= i ==> args[j] == actual[j - 1]
    ensures forall j :: 0 <= j <= i ==> args[j] == a && actual[j] == a
    decreases i
  {
    hide Actual;
    if i > 0 { Repeated(pointer, a, args, actual, i - 1); }
    LeafActual(pointer, a);
  }

  /** A template that fits does what it says. */
  lemma {:induction false} FitsSoundBody(pointer: bool, b: Body)
    requires FitsBody(pointer, b)
    ensures SoundBody(pointer, b) && ActualBody(pointer, b) == b
    decreases b, 0
  {
    hide Fits, Sound, Actual;
    if b.Cons? {
      match b.head {
        case Text(_) =>
        case Comment =>
        case Print(e) => FitsSound(pointer, e);
        case If(_, chain) => FitsSoundChain(pointer, chain);
        case ForItem(_, _, over, body, _) =>
          FitsSound(pointer, over);
          FitsSoundBody(pointer, body);
        case ForEntry(_, _, _, over, body, _) =>
          FitsSound(pointer, over);
          FitsSoundBody(pointer, body);
      }
      FitsSoundBody(pointer, b.rest);
    }
  }

  lemma {:induction false} FitsSoundChain(pointer: bool, c: Chain)
    requires FitsChain(pointer, c)
    ensures SoundChain(pointer, c) && ActualChain(pointer, c) == c
    decreases c, 0
  {
    hide Fits, Sound, Actual;
    FitsSound(pointer, c.cond);
    FitsSoundBody(pointer, c.yes);
    match c.tail {
      case EndIf(_) =>
      case Else(_, no, _) => FitsSoundBody(pointer, no);
      case ElseIf(_, next) => FitsSoundChain(pointer, next);
    }
  }
}
