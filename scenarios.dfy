/**
 * Whole-session traces: the sum trace recorded by the repository's test
 * program, and the empty trace. Each is driven through the recorder's
 * methods and its generated code is pinned down character by character.
 */
module Scenarios {
  import opened ScalarTypes
  import opened Text
  import opened Tape
  import opened Emit
  import opened Templates
  import opened Recording

  /** The decimal forms of the three ids of the sum trace. */
  lemma Names()
    ensures IntToStr(0) == "0" && IntToStr(1) == "1" && IntToStr(2) == "2"
    ensures VarName(0) == "v0" && VarName(1) == "v1" && VarName(2) == "v2"
  {
    OneDigit(0);
    OneDigit(1);
    OneDigit(2);
  }

  /**
   * The tape after `ADFloat x("x"); ADFloat y("y"); ADFloat z = x + y;`:
   * two float leaves and their float sum.
   */
  ghost predicate SumTrace(t: seq<Var>)
  {
    && |t| == 3
    && t[0].id == 0 && t[0].ty == Float32 && t[0].forward == LeafForward("x") && t[0].backward == ""
    && t[0].deps[0] == -1
    && t[1].id == 1 && t[1].ty == Float32 && t[1].forward == LeafForward("y") && t[1].backward == ""
    && t[1].deps[0] == -1
    && t[2].id == 2 && t[2].ty == Float32 && t[2].forward == ArithForward(Add) && t[2].backward == ArithBackward(Add)
    && t[2].deps[0] == 0 && t[2].deps[1] == 1 && t[2].deps[2] == -1
  }

  // ---------------------------------------------------------------------
  // Three-entry tapes, entry by entry.
  // ---------------------------------------------------------------------

  lemma InOrderThree(t: seq<Var>, line: Var -> string)
    requires |t| == 3
    ensures InOrder(t, line) == line(t[0]) + line(t[1]) + line(t[2])
  {
    InOrderStep(t, 0, line);
    InOrderStep(t, 1, line);
    InOrderStep(t, 2, line);
    assert t[..0] == [];
    assert t[..3] == t;
  }

  lemma InReverseThree(t: seq<Var>, line: Var -> string)
    requires |t| == 3
    ensures InReverse(t, line) == line(t[2]) + line(t[1]) + line(t[0])
  {
    InReverseStep(t, 0, line);
    InReverseStep(t, 1, line);
    InReverseStep(t, 2, line);
    assert t[3..] == [];
    assert t[0..] == t;
  }

  // ---------------------------------------------------------------------
  // The sum trace's statements.
  // ---------------------------------------------------------------------

  /** A float entry declares `float v<id>` and `float dv<id>`. */
  lemma FloatPair(v: Var, name: string, value: string, adjoint: string)
    requires v.ty == Float32 && IntToStr(v.id) == name
    requires value == "float v" + name + " = 0;\n" && adjoint == "float dv" + name + " = 0;\n"
    ensures DeclPair(v) == value + adjoint
  {
  }

  /** A non-empty forward statement is emitted on a line of its own. */
  lemma ForwardLineOf(v: Var, stmt: string)
    requires Substituted(v.forward, v) == stmt && |stmt| > 0
    ensures ForwardLine(v) == stmt + "\n"
  {
    ForwardLineIs(v, stmt);
  }

  /** A non-empty backward statement of a float entry is emitted on a line of its own. */
  lemma BackwardLineOf(v: Var, stmt: string)
    requires Substituted(v.backward, v) == stmt && |stmt| > 0 && IsFloat(v.ty)
    ensures BackwardLine(v) == stmt + "\n"
  {
    BackwardLineIs(v, stmt);
  }

  /** A leaf entry assigns its symbol to its own variable. */
  lemma LeafLine(v: Var, symbol: string, name: string, line: string)
    requires v.forward == LeafForward(symbol) && '$' !in symbol && v.deps[0] == -1
    requires VarName(v.id) == name && line == name + "=" + symbol + ";\n"
    ensures ForwardLine(v) == line
  {
    LeafStatement(v, symbol, name);
    ForwardLineOf(v, name + "=" + symbol + ";");
    LeafJoin(name, symbol, line);
  }

  lemma LeafStatement(v: Var, symbol: string, name: string)
    requires v.forward == LeafForward(symbol) && '$' !in symbol && v.deps[0] == -1
    requires VarName(v.id) == name
    ensures Substituted(v.forward, v) == name + "=" + symbol + ";"
  {
    LeafSubstituted(v, symbol);
  }

  lemma LeafJoin(name: string, symbol: string, line: string)
    requires line == name + "=" + symbol + ";\n"
    ensures (name + "=" + symbol + ";") + "\n" == line
  {
  }

  /** The sum entry adds its two operands. */
  lemma SumLine(v: Var, n: string, a: string, b: string, line: string)
    requires v.forward == ArithForward(Add) && v.deps[0] != -1 && v.deps[1] != -1 && v.deps[2] == -1
    requires VarName(v.id) == n && VarName(v.deps[0]) == a && VarName(v.deps[1]) == b
    requires line == n + " = " + a + " + " + b + ";\n"
    ensures ForwardLine(v) == line
  {
    SumStatement(v, n, a, b);
    ForwardLineOf(v, n + " = " + a + " " + "+" + " " + b + ";");
    SumJoin(n, a, b, line);
  }

  lemma SumStatement(v: Var, n: string, a: string, b: string)
    requires v.forward == ArithForward(Add) && v.deps[0] != -1 && v.deps[1] != -1 && v.deps[2] == -1
    requires VarName(v.id) == n && VarName(v.deps[0]) == a && VarName(v.deps[1]) == b
    ensures Substituted(v.forward, v) == n + " = " + a + " " + "+" + " " + b + ";"
  {
    ArithForwardShape(Add);
    BinaryStatement(v, "+");
  }

  lemma SumJoin(n: string, a: string, b: string, line: string)
    requires line == n + " = " + a + " + " + b + ";\n"
    ensures (n + " = " + a + " " + "+" + " " + b + ";") + "\n" == line
  {
  }

  /** The sum entry passes its adjoint to both operands. */
  lemma SumAdjointLine(v: Var, n: string, a: string, b: string, line: string)
    requires v.ty == Float32 && v.backward == ArithBackward(Add)
    requires v.deps[0] != -1 && v.deps[1] != -1 && v.deps[2] == -1
    requires VarName(v.id) == n && VarName(v.deps[0]) == a && VarName(v.deps[1]) == b
    requires line == "d" + a + " += d" + n + ";d" + b + " += d" + n + ";\n"
    ensures BackwardLine(v) == line
  {
    SumAdjointStatement(v, n, a, b);
    BackwardLineOf(v, "d" + a + " += d" + n + ";d" + b + " " + "+" + "= d" + n + ";");
    SumAdjointJoin(n, a, b, line);
  }

  lemma SumAdjointStatement(v: Var, n: string, a: string, b: string)
    requires v.backward == ArithBackward(Add)
    requires v.deps[0] != -1 && v.deps[1] != -1 && v.deps[2] == -1
    requires VarName(v.id) == n && VarName(v.deps[0]) == a && VarName(v.deps[1]) == b
    ensures Substituted(v.backward, v) == "d" + a + " += d" + n + ";d" + b + " " + "+" + "= d" + n + ";"
  {
    ArithBackwardAdditive();
    AdditiveAdjoint(v, "+");
  }

  lemma SumAdjointJoin(n: string, a: string, b: string, line: string)
    requires line == "d" + a + " += d" + n + ";d" + b + " += d" + n + ";\n"
    ensures ("d" + a + " += d" + n + ";d" + b + " " + "+" + "= d" + n + ";") + "\n" == line
  {
  }

  /** A leaf has no backward statement. */
  lemma LeafSilent(v: Var)
    requires v.backward == ""
    ensures BackwardLine(v) == ""
  {
    SubstitutedPlain(v.backward, v);
  }

  /** The sum trace's lines, piece by piece. */
  lemma SumLiterals()
    ensures "v0=x;\n" == "v0" + "=" + "x" + ";\n" && "v1=y;\n" == "v1" + "=" + "y" + ";\n"
    ensures "v2 = v0 + v1;\n" == "v2" + " = " + "v0" + " + " + "v1" + ";\n"
    ensures "dv0 += dv2;dv1 += dv2;\n" == "d" + "v0" + " += d" + "v2" + ";d" + "v1" + " += d" + "v2" + ";\n"
    ensures '$' !in "x" && '$' !in "y"
  {
  }

  /** The declaration block of the sum trace: a float and its adjoint per entry. */
  lemma SumDeclarations(t: seq<Var>)
    requires SumTrace(t)
    ensures DeclText(t)
         == "float v0 = 0;\n" + "float dv0 = 0;\n" + "float v1 = 0;\n" + "float dv1 = 0;\n"
          + "float v2 = 0;\n" + "float dv2 = 0;\n"
  {
    Names();
    InOrderThree(t, DeclPair);
    FloatPair(t[0], "0", "float v0 = 0;\n", "float dv0 = 0;\n");
    FloatPair(t[1], "1", "float v1 = 0;\n", "float dv1 = 0;\n");
    FloatPair(t[2], "2", "float v2 = 0;\n", "float dv2 = 0;\n");
  }

  /** The forward block of the sum trace. */
  lemma SumForwardCode(t: seq<Var>)
    requires SumTrace(t)
    ensures ForwardText(t) == "v0=x;\n" + "v1=y;\n" + "v2 = v0 + v1;\n"
  {
    Names();
    SumLiterals();
    InOrderThree(t, ForwardLine);
    LeafLine(t[0], "x", "v0", "v0=x;\n");
    LeafLine(t[1], "y", "v1", "v1=y;\n");
    SumLine(t[2], "v2", "v0", "v1", "v2 = v0 + v1;\n");
  }

  /** The reverse sweep of the sum trace: only the sum has a backward statement. */
  lemma SumBackwardCode(t: seq<Var>)
    requires SumTrace(t)
    ensures BackwardText(t) == "dv0 += dv2;dv1 += dv2;\n"
  {
    Names();
    SumLiterals();
    InReverseThree(t, BackwardLine);
    SumAdjointLine(t[2], "v2", "v0", "v1", "dv0 += dv2;dv1 += dv2;\n");
    LeafSilent(t[1]);
    LeafSilent(t[0]);
  }

  /** Seeding the sum's adjoint with `1`. */
  lemma SumSeed(h: Handle)
    requires h.id == 2
    ensures Gradients(h) + " =" + "1" + ";\n" == "dv2 =1;\n"
  {
    Names();
  }

  /** The generated code of a session whose buffers started empty and whose adjoint `g` was seeded once. */
  lemma SessionCode(code: string, decl: string, fwd: string, bwd: string,
                    d: string, f: string, g: string, seed: string, b: string)
    requires code == decl + fwd + bwd
    requires decl == "" + d && fwd == "" + f && bwd == "" + g + " =" + seed + ";\n" + b
    ensures code == d + f + (g + " =" + seed + ";\n") + b
  {
    assert "" + d == d && "" + f == f && "" + g == g;
  }

  /**
   * The test program: record `z = x + y` over two float symbols, stop,
   * seed `dz = 1`, sweep backward and generate the code.
   */
  method SumSession() returns (code: string)
    ensures code == ("float v0 = 0;\n" + "float dv0 = 0;\n" + "float v1 = 0;\n" + "float dv1 = 0;\n"
                     + "float v2 = 0;\n" + "float dv2 = 0;\n")
                  + ("v0=x;\n" + "v1=y;\n" + "v2 = v0 + v1;\n")
                  + "dv2 =1;\n"
                  + "dv0 += dv2;dv1 += dv2;\n"
  {
    var r := new Recorder();
    r.StartRecording();
    var x := r.Symbol(Float32, "x");
    var y := r.Symbol(Float32, "y");
    var z := r.Arith(Add, x, y);
    var t := r.vars;
    assert SumTrace(t);
    assert NoInt8(t);
    var aborted := r.StopRecording();
    r.SetGradient(z, "1");
    r.Backward();
    code := r.Codegen();
    assert r.vars == t;
    SessionCode(code, r.varDecl, r.forward, r.backward, DeclText(t), ForwardText(t), Gradients(z), "1", BackwardText(t));
    SumDeclarations(t);
    SumForwardCode(t);
    SumSeed(z);
    SumBackwardCode(t);
  }

  /** A session that records nothing generates no code at all. */
  method EmptySession() returns (code: string)
    ensures code == ""
  {
    var r := new Recorder();
    r.StartRecording();
    var aborted := r.StopRecording();
    r.Backward();
    code := r.Codegen();
  }
}
