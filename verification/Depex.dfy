/** The dependency-expression evaluator: a byte-coded postfix machine over a Boolean stack
    that grows in increments. Opcodes follow section 10.7 of Volume 2 of the UEFI PI
    Specification. */
module Depex {
  type Byte = x: int | 0 <= x < 256
  type Guid = s: seq<Byte> | |s| == 16 witness [0, 0, 0, 0, 0, 0, 0, 0, 0, 0, 0, 0, 0, 0, 0, 0]

  const BEFORE: Byte := 0
  const AFTER: Byte := 1
  const PUSH: Byte := 2
  const AND: Byte := 3
  const OR: Byte := 4
  const NOT: Byte := 5
  const TRUE: Byte := 6
  const FALSE: Byte := 7
  const END: Byte := 8

  const STACK_INCREMENT: nat := 0x1000

  // ---------- expressions and their encoding ----------

  /** op is PUSH in a well-formed dependency expression; a BEFORE or AFTER that is not the
      first opcode falls through to the PUSH case. */
  datatype Expr =
    | Push(op: Byte, guid: Guid)
    | Const(value: bool)
    | Not(e: Expr)
    | And(left: Expr, right: Expr)
    | Or(left: Expr, right: Expr)

  predicate Proper(e: Expr) {
    match e
    case Push(op, _) => op <= PUSH
    case Const(_) => true
    case Not(a) => Proper(a)
    case And(a, b) => Proper(a) && Proper(b)
    case Or(a, b) => Proper(a) && Proper(b)
  }

  /** Truth when the GUIDs in db are the ones with an installed interface. */
  predicate Truth(e: Expr, db: set<Guid>) {
    match e
    case Push(_, g) => g in db
    case Const(v) => v
    case Not(a) => !Truth(a, db)
    case And(a, b) => Truth(a, db) && Truth(b, db)
    case Or(a, b) => Truth(a, db) || Truth(b, db)
  }

  function Encode(e: Expr): seq<Byte> {
    match e
    case Push(op, g) => [op] + g
    case Const(v) => [if v then TRUE else FALSE]
    case Not(a) => Encode(a) + [NOT]
    case And(a, b) => Encode(a) + Encode(b) + [AND]
    case Or(a, b) => Encode(a) + Encode(b) + [OR]
  }

  function EncodeAll(es: seq<Expr>): seq<Byte> {
    if es == [] then [] else EncodeAll(es[..|es| - 1]) + Encode(es[|es| - 1])
  }

  /** How many stack elements evaluating e needs. */
  function Height(e: Expr): nat {
    match e
    case Push(_, _) => 1
    case Const(_) => 1
    case Not(a) => Height(a)
    case And(a, b) => var h := Height(a); if h < 1 + Height(b) then 1 + Height(b) else h
    case Or(a, b) => var h := Height(a); if h < 1 + Height(b) then 1 + Height(b) else h
  }

  // ---------- the machine ----------

  datatype Outcome = Next(it: nat, stack: seq<bool>) | Done(result: bool)

  /** Pushing fails when the stack cannot grow any further. */
  function Push1(it: nat, stack: seq<bool>, v: bool, cap: nat): Outcome {
    if |stack| < cap then Next(it, stack + [v]) else Done(false)
  }

  predicate Operate(op: Byte, v: bool, w: bool) {
    if op == AND then v && w else v || w
  }

  /** One round of the loop. mem holds the expression in its first size bytes and at least one
      GUID more, since the code reads a GUID without checking that it ends in time. */
  function Step(mem: seq<Byte>, size: nat, db: set<Guid>, cap: nat, it: nat, stack: seq<bool>): Outcome
    requires size + 17 <= |mem|
  {
    var n := |stack|;
    if it >= size then Done(false)
    else if mem[it] <= PUSH then Push1(it + 17, stack, mem[it + 1..it + 17] in db, cap)
    else if mem[it] == AND || mem[it] == OR then
      if n < 2 then Done(false)
      else
        Push1(it + 1, stack[..n - 2], Operate(mem[it], stack[n - 1], stack[n - 2]), cap)
    else if mem[it] == NOT then
      if n < 1 then Done(false) else Push1(it + 1, stack[..n - 1], !stack[n - 1], cap)
    else if mem[it] == TRUE then Push1(it + 1, stack, true, cap)
    else if mem[it] == FALSE then Push1(it + 1, stack, false, cap)
    else if mem[it] == END then Done(n > 0 && stack[n - 1])
    else Done(false)
  }

  lemma {:induction false} StepMoves(mem: seq<Byte>, size: nat, db: set<Guid>, cap: nat, it: nat, stack: seq<bool>)
    requires size + 17 <= |mem| && Step(mem, size, db, cap, it, stack).Next?
    ensures it < size && it < Step(mem, size, db, cap, it, stack).it
  {
  }

  lemma {:induction false} StepCases(mem: seq<Byte>, size: nat, db: set<Guid>, cap: nat, it: nat, stack: seq<bool>)
    requires size + 17 <= |mem|
    ensures it >= size ==> Step(mem, size, db, cap, it, stack) == Done(false)
    ensures it < size && mem[it] <= PUSH ==>
      Step(mem, size, db, cap, it, stack) == Push1(it + 17, stack, mem[it + 1..it + 17] in db, cap)
    ensures it < size && mem[it] == TRUE ==> Step(mem, size, db, cap, it, stack) == Push1(it + 1, stack, true, cap)
    ensures it < size && mem[it] == FALSE ==> Step(mem, size, db, cap, it, stack) == Push1(it + 1, stack, false, cap)
    ensures it < size && mem[it] == END ==>
      Step(mem, size, db, cap, it, stack) == Done(|stack| > 0 && stack[|stack| - 1])
    ensures it < size && mem[it] > END ==> Step(mem, size, db, cap, it, stack) == Done(false)
    ensures it < size && mem[it] == NOT ==>
      Step(mem, size, db, cap, it, stack) == if |stack| < 1 then Done(false)
        else Push1(it + 1, stack[..|stack| - 1], !stack[|stack| - 1], cap)
    ensures it < size && (mem[it] == AND || mem[it] == OR) ==>
      Step(mem, size, db, cap, it, stack) == if |stack| < 2 then Done(false) else
      Push1(it + 1, stack[..|stack| - 2], Operate(mem[it], stack[|stack| - 1], stack[|stack| - 2]), cap)
  {
  }

  /** The whole loop: on every byte string it terminates, since each round moves on. */
  function Run(mem: seq<Byte>, size: nat, db: set<Guid>, cap: nat, it: nat, stack: seq<bool>): bool
    requires size + 17 <= |mem|
    decreases if it < size then size - it else 0
  {
    match Step(mem, size, db, cap, it, stack)
    case Done(r) => r
    case Next(it', stack') => StepMoves(mem, size, db, cap, it, stack); Run(mem, size, db, cap, it', stack')
  }

  // ---------- a correct program gives the value of its expression ----------

  /** The bytes at it are the encoding of e, inside the expression. */
  ghost predicate Holds(mem: seq<Byte>, size: nat, it: nat, code: seq<Byte>) {
    it + |code| <= size && size + 17 <= |mem| && mem[it..it + |code|] == code
  }

  lemma {:induction false} HoldsSplit(mem: seq<Byte>, size: nat, it: nat, a: seq<Byte>, b: seq<Byte>)
    requires Holds(mem, size, it, a + b)
    ensures Holds(mem, size, it, a) && Holds(mem, size, it + |a|, b)
  {
    assert mem[it..it + |a + b|][..|a|] == mem[it..it + |a|];
    assert mem[it..it + |a + b|][|a|..] == mem[it + |a|..it + |a + b|];
  }

  lemma {:induction false} HoldsHead(mem: seq<Byte>, size: nat, it: nat, code: seq<Byte>)
    requires Holds(mem, size, it, code) && code != []
    ensures it < size && mem[it] == code[0]
  {
    assert mem[it..it + |code|][0] == mem[it];
  }

  /** What a push does to the rest of the run. */
  predicate RunPushed(mem: seq<Byte>, size: nat, db: set<Guid>, cap: nat, it: nat, stack: seq<bool>, v: bool)
    requires size + 17 <= |mem|
  {
    |stack| < cap && Run(mem, size, db, cap, it, stack + [v])
  }

  lemma {:induction false} RunPush(op: Byte, g: Guid, mem: seq<Byte>, size: nat, db: set<Guid>, cap: nat, it: nat,
                                   stack: seq<bool>)
    requires op <= PUSH && Holds(mem, size, it, [op] + g)
    ensures Run(mem, size, db, cap, it, stack) == RunPushed(mem, size, db, cap, it + 17, stack, g in db)
  {
    HoldsHead(mem, size, it, [op] + g);
    assert mem[it..it + 17][1..] == mem[it + 1..it + 17];
  }

  lemma {:induction false} RunConst(v: bool, mem: seq<Byte>, size: nat, db: set<Guid>, cap: nat, it: nat,
                                    stack: seq<bool>)
    requires Holds(mem, size, it, [if v then TRUE else FALSE])
    ensures Run(mem, size, db, cap, it, stack) == RunPushed(mem, size, db, cap, it + 1, stack, v)
  {
    HoldsHead(mem, size, it, [if v then TRUE else FALSE]);
  }

  lemma {:induction false} RunNot(v: bool, mem: seq<Byte>, size: nat, db: set<Guid>, cap: nat, it: nat,
                                  stack: seq<bool>)
    requires Holds(mem, size, it, [NOT])
    ensures Run(mem, size, db, cap, it, stack + [v]) == RunPushed(mem, size, db, cap, it + 1, stack, !v)
  {
    HoldsHead(mem, size, it, [NOT]);
    assert (stack + [v])[..|stack|] == stack;
  }

  lemma {:induction false} RunOp(op: Byte, v: bool, w: bool, mem: seq<Byte>, size: nat, db: set<Guid>, cap: nat,
                                 it: nat, stack: seq<bool>)
    requires (op == AND || op == OR) && Holds(mem, size, it, [op])
    ensures Run(mem, size, db, cap, it, stack + [v] + [w]) ==
      RunPushed(mem, size, db, cap, it + 1, stack, if op == AND then v && w else v || w)
  {
    HoldsHead(mem, size, it, [op]);
    var s2 := stack + [v] + [w];
    assert s2[..|stack|] == stack && s2[|stack|] == v && s2[|stack| + 1] == w;
  }

  /** Evaluating an encoded expression pushes its value, or runs out of stack. */
  lemma {:induction false} RunEncode(e: Expr, mem: seq<Byte>, size: nat, db: set<Guid>, cap: nat, it: nat,
                                     stack: seq<bool>)
    requires Proper(e) && Holds(mem, size, it, Encode(e)) && |stack| <= cap
    ensures Run(mem, size, db, cap, it, stack) ==
      (|stack| + Height(e) <= cap && Run(mem, size, db, cap, it + |Encode(e)|, stack + [Truth(e, db)]))
    decreases e, 1
  {
    hide Run, Holds;
    match e
    case Push(op, g) => RunPush(op, g, mem, size, db, cap, it, stack);
    case Const(v) => RunConst(v, mem, size, db, cap, it, stack);
    case Not(a) =>
      HoldsSplit(mem, size, it, Encode(a), [NOT]);
      RunEncode(a, mem, size, db, cap, it, stack);
      RunNot(Truth(a, db), mem, size, db, cap, it + |Encode(a)|, stack);
      HeightPositive(a);
    case And(a, b) => RunBinary(e, a, b, AND, mem, size, db, cap, it, stack);
    case Or(a, b) => RunBinary(e, a, b, OR, mem, size, db, cap, it, stack);
  }

  lemma {:induction false} HeightPositive(e: Expr)
    ensures 0 < Height(e)
  {
    match e
    case Push(_, _) =>
    case Const(_) =>
    case Not(a) => HeightPositive(a);
    case And(a, b) =>
    case Or(a, b) =>
  }

  lemma {:induction false} RunBinary(e: Expr, a: Expr, b: Expr, op: Byte,
                                     mem: seq<Byte>, size: nat, db: set<Guid>, cap: nat, it: nat, stack: seq<bool>)
    requires (e == And(a, b) && op == AND) || (e == Or(a, b) && op == OR)
    requires Proper(e) && |stack| <= cap && Holds(mem, size, it, Encode(a) + Encode(b) + [op])
    ensures Run(mem, size, db, cap, it, stack) ==
      (|stack| + Height(e) <= cap && Run(mem, size, db, cap, it + |Encode(e)|, stack + [Truth(e, db)]))
    decreases e, 0
  {
    hide Run, Holds;
    HoldsSplit(mem, size, it, Encode(a) + Encode(b), [op]);
    HoldsSplit(mem, size, it, Encode(a), Encode(b));
    RunEncode(a, mem, size, db, cap, it, stack);
    HeightPositive(a);
    if |stack| + Height(a) <= cap {
      var s1 := stack + [Truth(a, db)];
      var it1 := it + |Encode(a)|;
      RunEncode(b, mem, size, db, cap, it1, s1);
      RunOp(op, Truth(a, db), Truth(b, db), mem, size, db, cap, it1 + |Encode(b)|, stack);
    }
  }

  /** For every expression, evaluating its encoding followed by END gives its truth value,
      provided the stack can hold what the expression needs; otherwise it gives FALSE. */
  lemma {:induction false} ProgramGivesTruth(e: Expr, mem: seq<Byte>, size: nat, db: set<Guid>, cap: nat)
    requires Proper(e) && Holds(mem, size, 0, Encode(e) + [END])
    ensures Run(mem, size, db, cap, 0, []) <==> Truth(e, db) && Height(e) <= cap
  {
    hide Run, Encode, Truth, Height, Holds;
    HoldsSplit(mem, size, 0, Encode(e), [END]);
    RunEncode(e, mem, size, db, cap, 0, []);
    assert [] + [Truth(e, db)] == [Truth(e, db)];
    RunEnd(mem, size, db, cap, |Encode(e)|, [Truth(e, db)]);
  }

  // ---------- every run is the run of a correct program ----------

  predicate AllProper(es: seq<Expr>) {
    forall k :: 0 <= k < |es| ==> Proper(es[k])
  }

  /** Evaluating the expressions one after the other, leaving each value behind, never needs
      more than cap elements. */
  predicate Fits(es: seq<Expr>, cap: nat) {
    forall k :: 0 <= k < |es| ==> k + Height(es[k]) <= cap
  }

  function Values(es: seq<Expr>, db: set<Guid>): (vs: seq<bool>)
    ensures |vs| == |es| && forall k :: 0 <= k < |es| ==> vs[k] == Truth(es[k], db)
  {
    seq(|es|, k requires 0 <= k < |es| => Truth(es[k], db))
  }

  lemma {:induction false} EncodeAllPush(es: seq<Expr>, e: Expr)
    ensures EncodeAll(es + [e]) == EncodeAll(es) + Encode(e)
  {
    assert (es + [e])[..|es|] == es;
  }

  lemma {:induction false} ValuesPush(es: seq<Expr>, e: Expr, db: set<Guid>)
    ensures Values(es + [e], db) == Values(es, db) + [Truth(e, db)]
  {
  }

  /** What is known before each round: the bytes read so far encode the expressions es, and the
      stack holds their values. */
  ghost predicate Compiled(es: seq<Expr>, mem: seq<Byte>, size: nat, cap: nat, it: nat) {
    AllProper(es) && Fits(es, cap) && |es| <= cap &&
    Holds(mem, size, 0, EncodeAll(es)) && it == |EncodeAll(es)|
  }

  lemma {:induction false} HoldsMore(mem: seq<Byte>, size: nat, it: nat, a: seq<Byte>, b: seq<Byte>)
    requires Holds(mem, size, it, a) && Holds(mem, size, it + |a|, b)
    ensures Holds(mem, size, it, a + b)
  {
    var t := it + |a| + |b|;
    assert mem[it..t] == mem[it..it + |a|] + mem[it + |a|..t];
  }

  lemma {:induction false} HoldsByte(mem: seq<Byte>, size: nat, it: nat)
    requires size + 17 <= |mem| && it < size
    ensures Holds(mem, size, it, [mem[it]])
  {
  }

  lemma {:induction false} CompiledPush(es: seq<Expr>, e: Expr, mem: seq<Byte>, size: nat, cap: nat, it: nat)
    requires Compiled(es, mem, size, cap, it) && Proper(e) && |es| < cap && Height(e) == 1
    requires Holds(mem, size, it, Encode(e))
    ensures Compiled(es + [e], mem, size, cap, it + |Encode(e)|)
  {
    hide Holds, EncodeAll, Encode;
    HoldsMore(mem, size, 0, EncodeAll(es), Encode(e));
    EncodeAllPush(es, e);
  }

  lemma {:induction false} ReplaceTop(rest: seq<Expr>, top: seq<Expr>, e: Expr, cap: nat)
    requires AllProper(rest + top) && Fits(rest + top, cap) && Proper(e) && |rest| + Height(e) <= cap
    ensures AllProper(rest + [e]) && Fits(rest + [e], cap)
  {
    hide Proper, Height;
    assert forall k :: 0 <= k < |rest| ==> (rest + top)[k] == rest[k];
  }

  lemma {:induction false} CompiledNot(es: seq<Expr>, e: Expr, mem: seq<Byte>, size: nat, cap: nat, it: nat)
    requires Compiled(es + [e], mem, size, cap, it) && Holds(mem, size, it, [NOT])
    ensures Compiled(es + [Not(e)], mem, size, cap, it + 1)
  {
    assert Encode(Not(e)) == Encode(e) + [NOT];
    hide Holds, EncodeAll, Encode;
    assert (es + [e])[|es|] == e;
    ReplaceTop(es, [e], Not(e), cap);
    HoldsMore(mem, size, 0, EncodeAll(es + [e]), [NOT]);
    EncodeAllPush(es, e);
    EncodeAllPush(es, Not(e));
    assert EncodeAll(es) + (Encode(e) + [NOT]) == EncodeAll(es) + Encode(e) + [NOT];
  }

  lemma {:induction false} OpFits(es: seq<Expr>, a: Expr, b: Expr, e: Expr, cap: nat)
    requires e == And(a, b) || e == Or(a, b)
    requires AllProper(es + [a, b]) && Fits(es + [a, b], cap)
    ensures Proper(e) && |es| + Height(e) <= cap
  {
    assert (es + [a, b])[|es|] == a && (es + [a, b])[|es| + 1] == b;
  }

  lemma {:induction false} Regroup(w: seq<Byte>, x: seq<Byte>, y: seq<Byte>, z: seq<Byte>)
    ensures w + (x + y + z) == w + x + y + z
  {
  }

  lemma {:induction false} CompiledOp(es: seq<Expr>, a: Expr, b: Expr, e: Expr, op: Byte,
                                      mem: seq<Byte>, size: nat, cap: nat, it: nat)
    requires (e == And(a, b) && op == AND) || (e == Or(a, b) && op == OR)
    requires Compiled(es + [a] + [b], mem, size, cap, it) && Holds(mem, size, it, [op])
    ensures Compiled(es + [e], mem, size, cap, it + 1)
  {
    assert Encode(e) == Encode(a) + Encode(b) + [op];
    hide Holds, EncodeAll, Encode;
    assert es + [a] + [b] == es + [a, b];
    OpFits(es, a, b, e, cap);
    ReplaceTop(es, [a, b], e, cap);
    HoldsMore(mem, size, 0, EncodeAll(es + [a] + [b]), [op]);
    assert EncodeAll(es + [e]) == EncodeAll(es + [a] + [b]) + [op] by {
      EncodeAllPush(es, a);
      EncodeAllPush(es + [a], b);
      EncodeAllPush(es, e);
      Regroup(EncodeAll(es), Encode(a), Encode(b), [op]);
    }
    hide Proper, Fits;
  }

  /** The expressions on the stack after a round that goes on. */
  lemma {:induction false} StepCompiled(es: seq<Expr>, mem: seq<Byte>, size: nat, db: set<Guid>, cap: nat, it: nat)
    returns (es': seq<Expr>)
    requires Compiled(es, mem, size, cap, it)
    requires size + 17 <= |mem| && Step(mem, size, db, cap, it, Values(es, db)).Next?
    requires Step(mem, size, db, cap, it, Values(es, db)).it <= size
    ensures Compiled(es', mem, size, cap, Step(mem, size, db, cap, it, Values(es, db)).it)
    ensures Values(es', db) == Step(mem, size, db, cap, it, Values(es, db)).stack
  {
    hide Holds, EncodeAll, Compiled;
    var n := |es|;
    var op := mem[it];
    HoldsByte(mem, size, it);
    if op <= PUSH || op == TRUE || op == FALSE {
      var e := if op <= PUSH then Push(op, mem[it + 1..it + 17]) else Const(op == TRUE);
      assert Holds(mem, size, it, Encode(e)) by {
        if op <= PUSH { HoldsGuid(mem, size, it); }
      }
      es' := es + [e];
      CompiledPush(es, e, mem, size, cap, it);
      ValuesPush(es, e, db);
    } else if op == NOT {
      var rest, e := es[..n - 1], es[n - 1];
      assert es == rest + [e];
      CompiledNot(rest, e, mem, size, cap, it);
      es' := rest + [Not(e)];
    } else {
      var rest, a, b := es[..n - 2], es[n - 2], es[n - 1];
      assert es == rest + [a] + [b];
      var e := if op == AND then And(a, b) else Or(a, b);
      CompiledOp(rest, a, b, e, op, mem, size, cap, it);
      es' := rest + [e];
    }
  }

  lemma {:induction false} HoldsGuid(mem: seq<Byte>, size: nat, it: nat)
    requires size + 17 <= |mem| && it + 17 <= size
    ensures Holds(mem, size, it, [mem[it]] + mem[it + 1..it + 17])
  {
    assert mem[it..it + 17] == [mem[it]] + mem[it + 1..it + 17];
  }

  /** The byte string starts with the encodings of the expressions es, then END. */
  ghost predicate IsProgram(es: seq<Expr>, mem: seq<Byte>, size: nat) {
    es != [] && AllProper(es) && Holds(mem, size, 0, EncodeAll(es) + [END])
  }

  lemma {:induction false} Decompile(es: seq<Expr>, mem: seq<Byte>, size: nat, db: set<Guid>, cap: nat, it: nat)
    returns (p: seq<Expr>)
    requires Compiled(es, mem, size, cap, it)
    requires size + 17 <= |mem| && Run(mem, size, db, cap, it, Values(es, db))
    ensures IsProgram(p, mem, size) && Fits(p, cap) && Truth(p[|p| - 1], db)
    decreases if it < size then size - it else 0
  {
    hide Holds, EncodeAll, Step;
    match Step(mem, size, db, cap, it, Values(es, db))
    case Done(_) =>
      StepEnds(mem, size, db, cap, it, Values(es, db));
      HoldsByte(mem, size, it);
      HoldsMore(mem, size, 0, EncodeAll(es), [END]);
      p := es;
    case Next(it', stack') =>
      StepMoves(mem, size, db, cap, it, Values(es, db));
      if it' <= size {
        var es' := StepCompiled(es, mem, size, db, cap, it);
        p := Decompile(es', mem, size, db, cap, it');
      } else {
        PastEnd(mem, size, db, cap, it', stack');
      }
  }

  lemma {:induction false} PastEnd(mem: seq<Byte>, size: nat, db: set<Guid>, cap: nat, it: nat, stack: seq<bool>)
    requires size + 17 <= |mem| && size <= it
    ensures !Run(mem, size, db, cap, it, stack)
  {
  }

  /** The loop says TRUE only at an END. */
  lemma {:induction false} StepEnds(mem: seq<Byte>, size: nat, db: set<Guid>, cap: nat, it: nat, stack: seq<bool>)
    requires size + 17 <= |mem| && Step(mem, size, db, cap, it, stack) == Done(true)
    ensures it < size && mem[it] == END && |stack| > 0 && stack[|stack| - 1]
  {
  }

  lemma {:induction false} RunAll(es: seq<Expr>, mem: seq<Byte>, size: nat, db: set<Guid>, cap: nat)
    requires AllProper(es) && Fits(es, cap) && Holds(mem, size, 0, EncodeAll(es))
    ensures |es| <= cap
    ensures Run(mem, size, db, cap, 0, []) == Run(mem, size, db, cap, |EncodeAll(es)|, Values(es, db))
  {
    hide Holds, Run;
    if es == [] {
      assert Values(es, db) == [];
    } else {
      var rest, e := es[..|es| - 1], es[|es| - 1];
      assert es == rest + [e];
      HoldsSplit(mem, size, 0, EncodeAll(rest), Encode(e));
      RunAll(rest, mem, size, db, cap);
      HeightPositive(e);
      RunEncode(e, mem, size, db, cap, |EncodeAll(rest)|, Values(rest, db));
      ValuesPush(rest, e, db);
    }
  }

  /** Over all byte strings: the evaluator says TRUE exactly when the bytes start with a list of
      well-formed postfix expressions closed by END, the stack can hold what they need, and the
      last of them is true. Values left behind by the earlier ones do not matter. */
  lemma {:induction false} RunIsExact(mem: seq<Byte>, size: nat, db: set<Guid>, cap: nat)
    requires size + 17 <= |mem|
    ensures Run(mem, size, db, cap, 0, []) <==>
      exists p :: IsProgram(p, mem, size) && Fits(p, cap) && Truth(p[|p| - 1], db)
  {
    hide Run, Holds;
    if Run(mem, size, db, cap, 0, []) {
      assert Values([], db) == [];
      NothingRead(mem, size);
      var p := Decompile([], mem, size, db, cap, 0);
    }
    forall p | IsProgram(p, mem, size) && Fits(p, cap) && Truth(p[|p| - 1], db)
      ensures Run(mem, size, db, cap, 0, [])
    {
      HoldsSplit(mem, size, 0, EncodeAll(p), [END]);
      RunAll(p, mem, size, db, cap);
      RunEnd(mem, size, db, cap, |EncodeAll(p)|, Values(p, db));
    }
  }

  lemma {:induction false} NothingRead(mem: seq<Byte>, size: nat)
    requires size + 17 <= |mem|
    ensures Holds(mem, size, 0, [])
  {
  }

  lemma {:induction false} RunEnd(mem: seq<Byte>, size: nat, db: set<Guid>, cap: nat, it: nat, stack: seq<bool>)
    requires Holds(mem, size, it, [END]) && stack != []
    ensures Run(mem, size, db, cap, it, stack) == stack[|stack| - 1]
  {
    HoldsHead(mem, size, it, [END]);
  }

  // ---------- the evaluator as it is written: a growing array ----------

  /** The size the stack has once it cannot grow any more, when no block larger than limit can
      be allocated. */
  function Capacity(length: nat, limit: nat): (cap: nat)
    ensures cap >= length
    decreases limit - length
  {
    if length + STACK_INCREMENT <= limit then Capacity(length + STACK_INCREMENT, limit) else length
  }

  class Evaluator {
    /** mDepexEvaluationStack up to mDepexEvaluationStackEnd; it starts with no block at all. */
    var stack: array<bool>
    /** mDepexEvaluationStackPointer, from the start of the stack. */
    var pointer: nat
    /** The largest block AllocatePool will give. */
    const limit: nat

    ghost predicate Valid()
      reads this
    {
      pointer <= stack.Length
    }

    ghost function Contents(): seq<bool>
      requires Valid()
      reads this, stack
    {
      stack[..pointer]
    }

    constructor (limit: nat)
      ensures Valid() && Contents() == [] && this.limit == limit && fresh(stack)
      ensures Capacity(stack.Length, limit) == Capacity(0, limit)
    {
      stack := new bool[0];
      pointer := 0;
      this.limit := limit;
    }

    method GrowDepexStack() returns (ok: bool)
      requires Valid()
      modifies this
      ensures Valid() && Contents() == old(Contents()) && pointer == old(pointer)
      ensures ok == (old(stack.Length) + STACK_INCREMENT <= limit)
      ensures !ok ==> stack == old(stack)
      ensures ok ==> fresh(stack) && stack.Length == old(stack.Length) + STACK_INCREMENT
    {
      var size := stack.Length + STACK_INCREMENT;
      if size > limit {
        return false;
      }
      var newStack := new bool[size];
      var i := 0;
      while i < stack.Length
        invariant 0 <= i <= stack.Length && stack == old(stack) && pointer == old(pointer) && fresh(newStack)
        invariant newStack[..i] == stack[..i] && stack[..] == old(stack[..])
      {
        newStack[i] := stack[i];
        i := i + 1;
      }
      assert newStack[..pointer] == newStack[..i][..pointer];
      stack := newStack;
      return true;
    }

    /** Succeeds as long as the stack is below the size it can grow to. */
    method PushBool(value: bool) returns (ok: bool)
      requires Valid()
      modifies this, stack
      ensures Valid() && (stack == old(stack) || fresh(stack))
      ensures Capacity(stack.Length, limit) == old(Capacity(stack.Length, limit))
      ensures ok == (|old(Contents())| < Capacity(stack.Length, limit))
      ensures Contents() == if ok then old(Contents()) + [value] else old(Contents())
    {
      if pointer == stack.Length {
        var grown := GrowDepexStack();
        if !grown {
          return false;
        }
      }
      stack[pointer] := value;
      pointer := pointer + 1;
      assert stack[..pointer] == stack[..pointer - 1] + [value];
      return true;
    }

    method PopBool() returns (ok: bool, value: bool)
      requires Valid()
      modifies this`pointer
      ensures Valid()
      ensures ok == (|old(Contents())| > 0)
      ensures ok ==> old(Contents()) == Contents() + [value]
      ensures !ok ==> Contents() == old(Contents())
    {
      if pointer == 0 {
        return false, false;
      }
      pointer := pointer - 1;
      value := stack[pointer];
      assert old(stack[..pointer]) == stack[..pointer] + [value];
      return true, value;
    }

    /** AND and OR: two pops and a push. */
    method Combine(op: Byte) returns (ok: bool)
      requires Valid() && (op == AND || op == OR)
      modifies this, stack
      ensures Valid() && (stack == old(stack) || fresh(stack))
      ensures Capacity(stack.Length, limit) == old(Capacity(stack.Length, limit))
      ensures var was, n := old(Contents()), |old(Contents())|;
        ok == (n >= 2 && n - 2 < Capacity(stack.Length, limit)) &&
        (ok ==> Contents() == was[..n - 2] + [Operate(op, was[n - 1], was[n - 2])])
    {
      hide Capacity;
      var value, value2: bool;
      ok, value := PopBool();
      if !ok {
        return false;
      }
      ok, value2 := PopBool();
      if !ok {
        return false;
      }
      assert old(Contents()) == Contents() + [value2] + [value];
      ok := PushBool(Operate(op, value, value2));
    }

    /** NOT: a pop and a push. */
    method Negate() returns (ok: bool)
      requires Valid()
      modifies this, stack
      ensures Valid() && (stack == old(stack) || fresh(stack))
      ensures Capacity(stack.Length, limit) == old(Capacity(stack.Length, limit))
      ensures var was, n := old(Contents()), |old(Contents())|;
        ok == (n >= 1 && n - 1 < Capacity(stack.Length, limit)) &&
        (ok ==> Contents() == was[..n - 1] + [!was[n - 1]])
    {
      hide Capacity;
      var value: bool;
      ok, value := PopBool();
      if ok {
        assert old(Contents()) == Contents() + [value];
        ok := PushBool(!value);
      }
    }

    /** One opcode. */
    method Execute(mem: seq<Byte>, size: nat, db: set<Guid>, it: nat) returns (goesOn: bool, result: bool, next: nat)
      requires Valid() && size + 17 <= |mem|
      modifies this, stack
      ensures Valid() && (stack == old(stack) || fresh(stack))
      ensures Capacity(stack.Length, limit) == old(Capacity(stack.Length, limit))
      ensures Step(mem, size, db, Capacity(stack.Length, limit), it, old(Contents())) ==
        if goesOn then Next(next, Contents()) else Done(result)
    {
      StepCases(mem, size, db, Capacity(stack.Length, limit), it, Contents());
      hide Capacity, Contents, Step;
      result, next := false, it + 1;
      if it >= size {
        goesOn := false;
        return;
      }
      var op := mem[it];
      if op == BEFORE || op == AFTER || op == PUSH {
        goesOn := PushBool(mem[it + 1..it + 17] in db);
        next := it + 17;
      } else if op == AND || op == OR {
        goesOn := Combine(op);
      } else if op == NOT {
        goesOn := Negate();
      } else if op == TRUE {
        goesOn := PushBool(true);
      } else if op == FALSE {
        goesOn := PushBool(false);
      } else if op == END {
        var ok, value := PopBool();
        result := ok && value;
        goesOn := false;
      } else {
        goesOn := false;
      }
    }

    /** The evaluation loop for a driver whose dependency expression is neither NULL nor a
        Before or After; mem is what lies at Depex. */
    method MmIsSchedulable(mem: seq<Byte>, size: nat, db: set<Guid>) returns (ready: bool)
      requires Valid() && size + 17 <= |mem|
      modifies this, stack
      ensures Valid() && (stack == old(stack) || fresh(stack))
      ensures Capacity(stack.Length, limit) == old(Capacity(stack.Length, limit))
      ensures ready == Run(mem, size, db, Capacity(stack.Length, limit), 0, [])
    {
      hide Run, Capacity, Step;
      ghost var cap := Capacity(stack.Length, limit);
      pointer := 0;
      var it: nat := 0;
      while true
        invariant Valid() && (stack == old(stack) || fresh(stack))
        invariant Capacity(stack.Length, limit) == cap
        invariant Run(mem, size, db, cap, 0, []) == Run(mem, size, db, cap, it, Contents())
        decreases if it < size then size - it else 0
      {
        RunUnfold(mem, size, db, cap, it, Contents());
        ghost var was := Contents();
        var goesOn, result, next := Execute(mem, size, db, it);
        if !goesOn {
          return result;
        }
        StepMoves(mem, size, db, cap, it, was);
        it := next;
      }
    }
  }

  lemma {:induction false} RunUnfold(mem: seq<Byte>, size: nat, db: set<Guid>, cap: nat, it: nat, stack: seq<bool>)
    requires size + 17 <= |mem|
    ensures Run(mem, size, db, cap, it, stack) ==
      var o := Step(mem, size, db, cap, it, stack);
      if o.Done? then o.result else Run(mem, size, db, cap, o.it, o.stack)
  {
  }
}