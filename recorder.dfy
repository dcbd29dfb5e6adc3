/**
 * The recorder: the tape and the three code buffers (declarations,
 * forward, backward) as one owned object, with the operations that
 * record onto the tape (the handle algebra) and the two emission passes.
 *
 * Every recording method states the exact entries it appends, that the
 * buffers are untouched, and that it keeps the tape invariant when its
 * operands are handles of the current tape. The emission methods are
 * proved to append exactly the text the `Emit` functions describe.
 */
module Recording {
  import opened ScalarTypes
  import opened Text
  import opened Tape
  import opened Emit

  /** `k` is the first entry whose kind the catalog cannot name. */
  ghost predicate IsFirstInt8(vars: seq<Var>, k: int)
  {
    0 <= k < |vars| && vars[k].ty == Int8 && NoInt8(vars[..k])
  }

  /**
   * The first loop of `stop_recording`: the declaration pair of every
   * entry in tape order. On an `Int8` entry `type_to_str` aborts: the
   * text then holds the pairs of the entries before it.
   */
  method DeclarePass(tape: seq<Var>) returns (text: string, aborted: bool)
    ensures aborted <==> !NoInt8(tape)
    ensures !aborted ==> text == DeclText(tape)
    ensures aborted ==> exists k :: IsFirstInt8(tape, k) && text == DeclText(tape[..k])
  {
    text := "";
    var i := 0;
    while i < |tape|
      invariant 0 <= i <= |tape|
      invariant NoInt8(tape[..i])
      invariant text == DeclText(tape[..i])
    {
      var v := tape[i];
      var name := TypeToStr(v.ty);
      if name.None? {
        assert IsFirstInt8(tape, i);
        return text, true;
      }
      var t := name.value;
      var l1 := t + " v" + IntToStr(v.id) + " = 0;\n";
      var l2 := t + " dv" + IntToStr(v.id) + " = 0;\n";
      DeclTextStep(tape, i, t);
      assert NoInt8(tape[..i + 1]) by {
        assert tape[..i + 1] == tape[..i] + [v];
      }
      text := text + l1;
      text := text + l2;
      assert text == DeclText(tape[..i]) + (l1 + l2);
      i := i + 1;
    }
    assert tape[..i] == tape;
    aborted := false;
  }

  /**
   * The second loop of `stop_recording`: the substituted forward template
   * of every entry in tape order, each non-empty one on its own line.
   */
  method ForwardPass(tape: seq<Var>) returns (text: string)
    ensures text == ForwardText(tape)
  {
    text := "";
    var i := 0;
    while i < |tape|
      invariant 0 <= i <= |tape|
      invariant text == ForwardText(tape[..i])
    {
      var v := tape[i];
      var f := Substitute(v.forward, v);
      ForwardTextStep(tape, i, f);
      if f != "" {
        text := text + (f + "\n");
      }
      i := i + 1;
    }
    assert tape[..i] == tape;
  }

  /**
   * The loop of `backward`: the substituted backward template of every
   * entry from the last to the first, each non-empty one of a
   * floating-point entry on its own line.
   */
  method BackwardPass(tape: seq<Var>) returns (text: string)
    ensures text == BackwardText(tape)
  {
    text := "";
    var i := |tape|;
    assert tape[i..] == [];
    while i > 0
      invariant 0 <= i <= |tape|
      invariant text == BackwardText(tape[i..])
    {
      i := i - 1;
      var v := tape[i];
      var b := Substitute(v.backward, v);
      BackwardTextStep(tape, i, b);
      if b != "" && IsFloat(v.ty) {
        text := text + (b + "\n");
      }
    }
    assert tape[0..] == tape;
  }

  class Recorder {
    /** The tape, `recorder.vars`. */
    var vars: seq<Var>
    /** The three code buffers, `recorder.cg`. */
    var varDecl: string
    var forward: string
    var backward: string

    /** The tape invariant. */
    ghost predicate Valid()
      reads this
    {
      TapeValid(vars)
    }

    /** `h` is a handle of the current tape. */
    ghost predicate Holds(h: Handle)
      reads this
    {
      IsHandle(vars, h)
    }

    /** The state of the recorder before any trace: no entries, no code. */
    constructor()
      ensures vars == [] && varDecl == "" && forward == "" && backward == ""
      ensures Valid()
    {
      vars, varDecl, forward, backward := [], "", "", "";
    }

    /** `start_recording`: clear the tape and reset the three buffers. */
    method StartRecording()
      modifies this
      ensures vars == [] && varDecl == "" && forward == "" && backward == ""
      ensures Valid()
    {
      vars, varDecl, forward, backward := [], "", "", "";
    }

    /**
     * `append` (all four overloads): record an entry whose id is the
     * current tape length, with the given dependencies in slots 0.. and -1
     * in the rest.
     */
    method Append(ty: Type, fwd: string, bwd: string, deps: seq<int>) returns (id: int)
      requires |deps| <= 3
      modifies this
      ensures id == old(|vars|)
      ensures vars == old(vars) + [NewEntry(id, ty, fwd, bwd, deps)]
      ensures varDecl == old(varDecl) && forward == old(forward) && backward == old(backward)
      ensures old(Valid()) && (forall j :: 0 <= j < |deps| ==> 0 <= deps[j] < old(|vars|)) ==> Valid()
    {
      id := |vars|;
      if TapeValid(vars) && forall j :: 0 <= j < |deps| ==> 0 <= deps[j] < |vars| {
        AppendKeepsValid(vars, ty, fwd, bwd, deps);
      }
      vars := vars + [NewEntry(id, ty, fwd, bwd, deps)];
    }

    // -------------------------------------------------------------------
    // Handle construction.
    // -------------------------------------------------------------------

    /** `ADVar(const std::string &symbol)`: a leaf `$v=<symbol>;` with no gradient rule. */
    method Symbol(ty: Type, symbol: string) returns (h: Handle)
      modifies this
      ensures h == Handle(old(|vars|), ty)
      ensures vars == old(vars) + [NewEntry(h.id, ty, LeafForward(symbol), "", [])]
      ensures varDecl == old(varDecl) && forward == old(forward) && backward == old(backward)
      ensures old(Valid()) ==> Valid() && Holds(h)
    {
      var id := Append(ty, LeafForward(symbol), "", []);
      h := Handle(id, ty);
    }

    /**
     * `ADVar(Scalar v)`: a leaf for a literal; `rendered` is the literal's
     * text as `to_string` formats it.
     */
    method Literal(ty: Type, rendered: string) returns (h: Handle)
      modifies this
      ensures h == Handle(old(|vars|), ty)
      ensures vars == old(vars) + [NewEntry(h.id, ty, LeafForward(rendered), "", [])]
      ensures varDecl == old(varDecl) && forward == old(forward) && backward == old(backward)
      ensures old(Valid()) ==> Valid() && Holds(h)
    {
      h := Symbol(ty, rendered);
    }

    /** `ADVar()`: the literal `Scalar()`, which renders as `0` for every kind. */
    method Default(ty: Type) returns (h: Handle)
      modifies this
      ensures h == Handle(old(|vars|), ty)
      ensures vars == old(vars) + [NewEntry(h.id, ty, "$v=0;", "", [])]
      ensures varDecl == old(varDecl) && forward == old(forward) && backward == old(backward)
      ensures old(Valid()) ==> Valid() && Holds(h)
    {
      assert LeafForward("0") == "$v=0;";
      h := Literal(ty, "0");
    }

    // -------------------------------------------------------------------
    // Operators on handles.
    // -------------------------------------------------------------------

    /** `a + b`, `a - b`, `a * b`, `a / b` on two handles of one kind. */
    method Arith(op: ArithOp, a: Handle, b: Handle) returns (r: Handle)
      requires a.ty == b.ty
      modifies this
      ensures r == Handle(old(|vars|), a.ty)
      ensures vars == old(vars) + [NewEntry(r.id, a.ty, ArithForward(op), ArithBackward(op), [a.id, b.id])]
      ensures varDecl == old(varDecl) && forward == old(forward) && backward == old(backward)
      ensures old(Valid() && Holds(a) && Holds(b)) ==> Valid() && Holds(r) && Holds(a) && Holds(b)
    {
      var id := Append(a.ty, ArithForward(op), ArithBackward(op), [a.id, b.id]);
      r := Handle(id, a.ty);
      if old(Holds(a) && Holds(b)) {
        HandleSurvivesAppend(old(vars), [vars[id]], a);
        HandleSurvivesAppend(old(vars), [vars[id]], b);
      }
    }

    /** Unary minus and `sin`, `cos`, `log`, `exp`, `sqrt`. */
    method Unary(op: UnaryOp, x: Handle) returns (r: Handle)
      modifies this
      ensures r == Handle(old(|vars|), x.ty)
      ensures vars == old(vars) + [NewEntry(r.id, x.ty, UnaryForward(op), UnaryBackward(op), [x.id])]
      ensures varDecl == old(varDecl) && forward == old(forward) && backward == old(backward)
      ensures old(Valid() && Holds(x)) ==> Valid() && Holds(r) && Holds(x)
    {
      var id := Append(x.ty, UnaryForward(op), UnaryBackward(op), [x.id]);
      r := Handle(id, x.ty);
      if old(Holds(x)) {
        HandleSurvivesAppend(old(vars), [vars[id]], x);
      }
    }

    /** `select(cond, a, b)`: dependencies in the order condition, then branch, else branch. */
    method Select(cond: Handle, a: Handle, b: Handle) returns (r: Handle)
      requires cond.ty == Bool && a.ty == b.ty
      modifies this
      ensures r == Handle(old(|vars|), a.ty)
      ensures vars == old(vars) + [NewEntry(r.id, a.ty, SelectForward(), SelectBackward(), [cond.id, a.id, b.id])]
      ensures varDecl == old(varDecl) && forward == old(forward) && backward == old(backward)
      ensures old(Valid() && Holds(cond) && Holds(a) && Holds(b)) ==> Valid() && Holds(r) && Holds(cond) && Holds(a) && Holds(b)
    {
      var id := Append(a.ty, SelectForward(), SelectBackward(), [cond.id, a.id, b.id]);
      r := Handle(id, a.ty);
      if old(Holds(cond) && Holds(a) && Holds(b)) {
        HandleSurvivesAppend(old(vars), [vars[id]], cond);
        HandleSurvivesAppend(old(vars), [vars[id]], a);
        HandleSurvivesAppend(old(vars), [vars[id]], b);
      }
    }

    /** `a == b` and the other comparisons: a `Bool` entry with no gradient rule. */
    method Compare(op: CmpOp, a: Handle, b: Handle) returns (r: Handle)
      requires a.ty == b.ty
      modifies this
      ensures r == Handle(old(|vars|), Bool)
      ensures vars == old(vars) + [NewEntry(r.id, Bool, CmpForward(op), "", [a.id, b.id])]
      ensures varDecl == old(varDecl) && forward == old(forward) && backward == old(backward)
      ensures old(Valid() && Holds(a) && Holds(b)) ==> Valid() && Holds(r) && Holds(a) && Holds(b)
    {
      var id := Append(Bool, CmpForward(op), "", [a.id, b.id]);
      r := Handle(id, Bool);
      if old(Holds(a) && Holds(b)) {
        HandleSurvivesAppend(old(vars), [vars[id]], a);
        HandleSurvivesAppend(old(vars), [vars[id]], b);
      }
    }

    // -------------------------------------------------------------------
    // Operators with a literal operand: the literal becomes a leaf first.
    // -------------------------------------------------------------------

    /** `lit op b` for a comparison: leaf for `lit`, then the comparison on (leaf, b). */
    method CompareLiteralLeft(op: CmpOp, lit: string, b: Handle) returns (r: Handle)
      modifies this
      ensures r == Handle(old(|vars|) + 1, Bool)
      ensures vars == old(vars) + [NewEntry(old(|vars|), b.ty, LeafForward(lit), "", []),
                                   NewEntry(r.id, Bool, CmpForward(op), "", [old(|vars|), b.id])]
      ensures varDecl == old(varDecl) && forward == old(forward) && backward == old(backward)
      ensures old(Valid() && Holds(b)) ==> Valid() && Holds(r) && Holds(b)
    {
      var leaf := Literal(b.ty, lit);
      if old(Holds(b)) {
        HandleSurvivesAppend(old(vars), [vars[leaf.id]], b);
      }
      r := Compare(op, leaf, b);
    }

    /** `a op lit` for a comparison: leaf for `lit`, then the comparison on (a, leaf). */
    method CompareLiteralRight(op: CmpOp, a: Handle, lit: string) returns (r: Handle)
      modifies this
      ensures r == Handle(old(|vars|) + 1, Bool)
      ensures vars == old(vars) + [NewEntry(old(|vars|), a.ty, LeafForward(lit), "", []),
                                   NewEntry(r.id, Bool, CmpForward(op), "", [a.id, old(|vars|)])]
      ensures varDecl == old(varDecl) && forward == old(forward) && backward == old(backward)
      ensures old(Valid() && Holds(a)) ==> Valid() && Holds(r) && Holds(a)
    {
      var leaf := Literal(a.ty, lit);
      if old(Holds(a)) {
        HandleSurvivesAppend(old(vars), [vars[leaf.id]], a);
      }
      r := Compare(op, a, leaf);
    }

    /** `lit op b` for `+ - * /`: leaf for `lit`, then the operator on (leaf, b). */
    method ArithLiteralLeft(op: ArithOp, lit: string, b: Handle) returns (r: Handle)
      modifies this
      ensures r == Handle(old(|vars|) + 1, b.ty)
      ensures vars == old(vars) + [NewEntry(old(|vars|), b.ty, LeafForward(lit), "", []),
                                   NewEntry(r.id, b.ty, ArithForward(op), ArithBackward(op), [old(|vars|), b.id])]
      ensures varDecl == old(varDecl) && forward == old(forward) && backward == old(backward)
      ensures old(Valid() && Holds(b)) ==> Valid() && Holds(r) && Holds(b)
    {
      var leaf := Literal(b.ty, lit);
      if old(Holds(b)) {
        HandleSurvivesAppend(old(vars), [vars[leaf.id]], b);
      }
      r := Arith(op, leaf, b);
    }

    /** `a op lit` for `+ - * /`: leaf for `lit`, then the operator on (a, leaf). */
    method ArithLiteralRight(op: ArithOp, a: Handle, lit: string) returns (r: Handle)
      modifies this
      ensures r == Handle(old(|vars|) + 1, a.ty)
      ensures vars == old(vars) + [NewEntry(old(|vars|), a.ty, LeafForward(lit), "", []),
                                   NewEntry(r.id, a.ty, ArithForward(op), ArithBackward(op), [a.id, old(|vars|)])]
      ensures varDecl == old(varDecl) && forward == old(forward) && backward == old(backward)
      ensures old(Valid() && Holds(a)) ==> Valid() && Holds(r) && Holds(a)
    {
      var leaf := Literal(a.ty, lit);
      if old(Holds(a)) {
        HandleSurvivesAppend(old(vars), [vars[leaf.id]], a);
      }
      r := Arith(op, a, leaf);
    }

    /**
     * `a op= b` (`+= -= *= /=` with a handle): `a` is rebound to the entry
     * `a op b` appends; the result is the rebound handle.
     */
    method ArithAssign(op: ArithOp, a: Handle, b: Handle) returns (a': Handle)
      requires a.ty == b.ty
      modifies this
      ensures a' == Handle(old(|vars|), a.ty)
      ensures vars == old(vars) + [NewEntry(a'.id, a.ty, ArithForward(op), ArithBackward(op), [a.id, b.id])]
      ensures varDecl == old(varDecl) && forward == old(forward) && backward == old(backward)
      ensures old(Valid() && Holds(a) && Holds(b)) ==> Valid() && Holds(a')
    {
      a' := Arith(op, a, b);
    }

    /**
     * `a op= lit` (`+= -= *= /=` with a literal): `a` is rebound to the
     * entry `a op lit` appends after the literal's leaf.
     */
    method ArithAssignLiteral(op: ArithOp, a: Handle, lit: string) returns (a': Handle)
      modifies this
      ensures a' == Handle(old(|vars|) + 1, a.ty)
      ensures vars == old(vars) + [NewEntry(old(|vars|), a.ty, LeafForward(lit), "", []),
                                   NewEntry(a'.id, a.ty, ArithForward(op), ArithBackward(op), [a.id, old(|vars|)])]
      ensures varDecl == old(varDecl) && forward == old(forward) && backward == old(backward)
      ensures old(Valid() && Holds(a)) ==> Valid() && Holds(a')
    {
      a' := ArithLiteralRight(op, a, lit);
    }

    // -------------------------------------------------------------------
    // Emission.
    // -------------------------------------------------------------------

    /**
     * `stop_recording`: append the declaration pair of every entry, then
     * the forward statement of every entry, in tape order. On an `Int8`
     * entry `type_to_str` aborts the process: `aborted` is true, and the
     * declaration buffer holds the pairs of the entries before it.
     */
    method StopRecording() returns (aborted: bool)
      modifies this
      ensures vars == old(vars) && backward == old(backward)
      ensures aborted <==> !NoInt8(vars)
      ensures !aborted ==> varDecl == old(varDecl) + DeclText(vars)
      ensures !aborted ==> forward == old(forward) + ForwardText(vars)
      ensures aborted ==> forward == old(forward)
      ensures aborted ==> exists k :: IsFirstInt8(vars, k) && varDecl == old(varDecl) + DeclText(vars[..k])
    {
      var decl;
      decl, aborted := DeclarePass(vars);
      varDecl := varDecl + decl;
      if aborted {
        return;
      }
      var code := ForwardPass(vars);
      forward := forward + code;
    }

    /** `set_gradient`: append the seed assignment `dv<id> =<symbol>;`. */
    method SetGradient(h: Handle, symbol: string)
      modifies this
      ensures backward == old(backward) + Gradients(h) + " =" + symbol + ";\n"
      ensures vars == old(vars) && varDecl == old(varDecl) && forward == old(forward)
    {
      backward := backward + Gradients(h) + " =" + symbol + ";\n";
    }

    /**
     * `backward`: walk the tape from the last entry to the first and
     * append the backward statement of every floating-point entry whose
     * substituted template is non-empty.
     */
    method Backward()
      modifies this
      ensures backward == old(backward) + BackwardText(vars)
      ensures vars == old(vars) && varDecl == old(varDecl) && forward == old(forward)
    {
      var code := BackwardPass(vars);
      backward := backward + code;
    }

    /** `codegen`: the declarations, then the forward code, then the backward code. */
    function Codegen(): (r: string)
      reads this
      ensures |r| == |varDecl| + |forward| + |backward|
      ensures r[..|varDecl|] == varDecl
      ensures r[|varDecl|..|varDecl| + |forward|] == forward
      ensures r[|varDecl| + |forward|..] == backward
    {
      varDecl + forward + backward
    }
  }
}
