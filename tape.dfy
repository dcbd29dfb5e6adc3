/**
 * The tape: the entries `ADRecorder::Var` that tracing appends, the
 * invariant every trace built from handles keeps, the handles
 * themselves, and the fixed table of template pairs the operators record.
 */
module Tape {
  import opened ScalarTypes

  /** The four dependency slots of an entry; an unused slot holds -1. */
  type Slots = s: seq<int> | |s| == 4 witness [-1, -1, -1, -1]

  /**
   * One recorded operation: its id, result kind, forward and backward
   * templates (placeholders `$v` for itself, `$0`..`$3` for its
   * dependencies) and dependency slots.
   */
  datatype Var = Var(id: int, ty: Type, forward: string, backward: string, deps: Slots)

  /** The slot array the `append` overloads build from 0 to 3 dependencies. */
  function Pad(deps: seq<int>): (r: Slots)
    requires |deps| <= 3
    ensures r[..|deps|] == deps
    ensures forall j :: |deps| <= j < 4 ==> r[j] == -1
  {
    deps + seq(4 - |deps|, _ => -1)
  }

  /**
   * Slot discipline of entry `id`: the used slots come first, each names
   * a strictly earlier entry, and the last slot is never used.
   */
  ghost predicate SlotsPacked(deps: Slots, id: int)
  {
    && deps[3] == -1
    && (forall j :: 0 <= j < 4 && deps[j] != -1 ==> 0 <= deps[j] < id)
    && (forall j :: 1 <= j < 4 && deps[j] != -1 ==> deps[j - 1] != -1)
  }

  /**
   * The tape invariant: ids are dense and equal to position, and every
   * dependency is an earlier entry, so tape order is a topological order.
   */
  ghost predicate TapeValid(vars: seq<Var>)
  {
    forall i :: 0 <= i < |vars| ==> vars[i].id == i && SlotsPacked(vars[i].deps, i)
  }

  /** A symbolic value `ADVar<Scalar>`: an entry id and its static scalar kind. */
  datatype Handle = Handle(id: int, ty: Type)

  /** `h` refers to an entry of `vars` recorded with the handle's own kind. */
  ghost predicate IsHandle(vars: seq<Var>, h: Handle)
  {
    0 <= h.id < |vars| && vars[h.id].ty == h.ty
  }

  /**
   * The entry `append` records when the tape has `n` entries: id `n`,
   * dependencies in argument order, trailing slots -1.
   */
  function NewEntry(n: int, ty: Type, forward: string, backward: string, deps: seq<int>): (v: Var)
    requires |deps| <= 3
    ensures v.id == n && v.ty == ty && v.forward == forward && v.backward == backward
    ensures v.deps[..|deps|] == deps
    ensures forall j :: |deps| <= j < 4 ==> v.deps[j] == -1
  {
    Var(n, ty, forward, backward, Pad(deps))
  }

  /**
   * Appending an entry whose dependencies are existing entries keeps the
   * invariant, and every earlier entry is left as it was.
   */
  lemma {:induction false} AppendKeepsValid(vars: seq<Var>, ty: Type, forward: string, backward: string, deps: seq<int>)
    requires TapeValid(vars)
    requires |deps| <= 3
    requires forall j :: 0 <= j < |deps| ==> 0 <= deps[j] < |vars|
    ensures TapeValid(vars + [NewEntry(|vars|, ty, forward, backward, deps)])
  {
    var v := NewEntry(|vars|, ty, forward, backward, deps);
    forall j | 0 <= j < 4 && v.deps[j] != -1
      ensures 0 <= v.deps[j] < |vars|
    {
      assert j < |deps| && v.deps[j] == deps[j];
    }
    forall j | 1 <= j < 4 && v.deps[j] != -1
      ensures v.deps[j - 1] != -1
    {
      assert j < |deps| && v.deps[j - 1] == deps[j - 1];
    }
    assert SlotsPacked(v.deps, |vars|);
    var vars' := vars + [v];
    forall i | 0 <= i < |vars'|
      ensures vars'[i].id == i && SlotsPacked(vars'[i].deps, i)
    {
      if i < |vars| {
        assert vars'[i] == vars[i];
      }
    }
  }

  /** A handle of the tape is still a handle of the tape after anything is appended. */
  lemma HandleSurvivesAppend(vars: seq<Var>, more: seq<Var>, h: Handle)
    requires IsHandle(vars, h)
    ensures IsHandle(vars + more, h)
  {
    assert (vars + more)[h.id] == vars[h.id];
  }

  // ---------------------------------------------------------------------
  // The operator catalog: one template pair per operation.
  // ---------------------------------------------------------------------

  /** The binary arithmetic operators `+ - * /`. */
  datatype ArithOp = Add | Sub | Mul | Div

  /** The unary operations: negation and the five math functions. */
  datatype UnaryOp = Neg | Sin | Cos | Log | Exp | Sqrt

  /** The six comparison operators of `CMP_OP`. */
  datatype CmpOp = Eq | Ne | Le | Ge | Lt | Gt

  /** The forward templates of `+ - * /`, as the operators record them. */
  function ArithForward(op: ArithOp): (r: string)
  {
    match op
    case Add => "$v = $0 + $1;"
    case Sub => "$v = $0 - $1;"
    case Mul => "$v = $0 * $1;"
    case Div => "$v = $0 / $1;"
  }

  /** The backward templates of `+ - * /`, as the operators record them. */
  function ArithBackward(op: ArithOp): (r: string)
  {
    match op
    case Add => "d$0 += d$v;d$1 += d$v;"
    case Sub => "d$0 += d$v;d$1 -= d$v;"
    case Mul => "d$0 += d$v * $1;d$1 += d$v * $0;"
    case Div => "d$0 += d$v / $1;d$1 += d$v * $0 / ($1 * $1);"
  }

  /** The forward templates of negation and the five math functions. */
  function UnaryForward(op: UnaryOp): (r: string)
  {
    match op
    case Neg => "$v = -$0;"
    case Sin => "$v = std::sin($0);"
    case Cos => "$v = std::cos($0);"
    case Log => "$v = std::log($0);"
    case Exp => "$v = std::exp($0);"
    case Sqrt => "$v = std::sqrt($0);"
  }

  /** Backward rules as the header writes them; the `Cos` rule carries a `+` sign. */
  function UnaryBackward(op: UnaryOp): (r: string)
  {
    match op
    case Neg => "d$0 += -d$v;"
    case Sin => "d$0 += d$v * std::cos($0);"
    case Cos => "d$0 += d$v * std::sin($0);"
    case Log => "d$0 += d$v / $0;"
    case Exp => "d$0 += d$v * $v;"
    case Sqrt => "d$0 += d$v * 0.5 / $v;"
  }

  /** The C++ spelling of a comparison, as the `#op` of `CMP_OP` stringifies it. */
  function CmpSymbol(op: CmpOp): (r: string)
  {
    match op
    case Eq => "=="
    case Ne => "!="
    case Le => "<="
    case Ge => ">="
    case Lt => "<"
    case Gt => ">"
  }

  /** The forward template of a binary operator spelled `symbol`. */
  function BinaryForward(symbol: string): (r: string)
  {
    "$v = $0 " + symbol + " $1;"
  }

  /** The C++ spelling of an arithmetic operator. */
  function ArithSymbol(op: ArithOp): (r: string)
  {
    match op
    case Add => "+"
    case Sub => "-"
    case Mul => "*"
    case Div => "/"
  }

  /** Every arithmetic forward template is the binary template of its operator. */
  lemma ArithForwardShape(op: ArithOp)
    ensures ArithForward(op) == BinaryForward(ArithSymbol(op))
  {
  }

  /** The backward template of `+` and `-`: the second operand's adjoint is updated with `sign`. */
  function AdditiveBackward(sign: string): (r: string)
  {
    "d$0 += d$v;d$1 " + sign + "= d$v;"
  }

  lemma ArithBackwardAdditive()
    ensures ArithBackward(Add) == AdditiveBackward("+")
    ensures ArithBackward(Sub) == AdditiveBackward("-")
  {
  }

  /** The forward template of a comparison, as `CMP_OP` pastes it together. */
  function CmpForward(op: CmpOp): (r: string)
  {
    BinaryForward(CmpSymbol(op))
  }

  /** The forward template of `select`: `$0` is the condition, `$1` and `$2` the two choices. */
  function SelectForward(): (r: string)
  {
    "$v = $0 ? $1 : $2;"
  }

  /** The backward template of `select`: the result's adjoint flows to the chosen operand only. */
  function SelectBackward(): (r: string)
  {
    "if($0){d$1 += d$v;}else{d$2 += d$v;}"
  }

  /** The forward template of a leaf for a symbol or a rendered literal. */
  function LeafForward(symbol: string): (r: string)
  {
    "$v=" + symbol + ";"
  }
}
