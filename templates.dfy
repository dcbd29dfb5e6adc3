/**
 * The catalog templates written as pieces, and the statements they become
 * once an entry's names are filled in: what the two passes write for
 * `*`, `/`, `select` and the unary operations. Every template here is
 * proved equal to the catalog string the operator records, so the general
 * substitution lemma applies to it, however often a hole occurs.
 */
module Templates {
  import opened Text
  import opened Tape
  import opened Emit

  // ---------------------------------------------------------------------
  // Rendering and filling a template a few pieces at a time.
  // ---------------------------------------------------------------------

  lemma Pair(p: Piece, q: Piece, t: string)
    requires PieceText(p) + PieceText(q) == t
    ensures Render([p, q]) == t
  {
    assert [p, q][1..] == [q];
    assert Render([q]) == PieceText(q) by {
      assert [q][1..] == [];
    }
  }

  lemma Triple(p: Piece, q: Piece, r: Piece, t: string)
    requires PieceText(p) + PieceText(q) + PieceText(r) == t
    ensures Render([p, q, r]) == t
  {
    Render3(p, q, r);
  }

  lemma Bind2(p: Piece, q: Piece, names: map<char, string>)
    ensures Bind([p, q], names) == [BindPiece(p, names), BindPiece(q, names)]
  {
    assert [p, q][1..] == [q];
    assert Bind([q], names) == [BindPiece(q, names)] by {
      assert [q][1..] == [];
    }
  }

  lemma FillPair(p: Piece, q: Piece, names: map<char, string>)
    ensures Render(Bind([p, q], names)) == PieceText(BindPiece(p, names)) + PieceText(BindPiece(q, names))
  {
    Bind2(p, q, names);
    Pair(BindPiece(p, names), BindPiece(q, names), PieceText(BindPiece(p, names)) + PieceText(BindPiece(q, names)));
  }

  lemma FillTriple(p: Piece, q: Piece, r: Piece, names: map<char, string>)
    ensures Render(Bind([p, q, r], names))
         == PieceText(BindPiece(p, names)) + PieceText(BindPiece(q, names)) + PieceText(BindPiece(r, names))
  {
    Bind3(p, q, r, names);
    Render3(BindPiece(p, names), BindPiece(q, names), BindPiece(r, names));
  }

  lemma RenderJoin3(c1: seq<Piece>, c2: seq<Piece>, c3: seq<Piece>, t1: string, t2: string, t3: string)
    requires Render(c1) == t1 && Render(c2) == t2 && Render(c3) == t3
    ensures Render(c1 + c2 + c3) == t1 + t2 + t3
  {
    RenderAppend(c1, c2);
    RenderAppend(c1 + c2, c3);
  }

  lemma RenderJoin4(c1: seq<Piece>, c2: seq<Piece>, c3: seq<Piece>, c4: seq<Piece>,
                    t1: string, t2: string, t3: string, t4: string)
    requires Render(c1) == t1 && Render(c2) == t2 && Render(c3) == t3 && Render(c4) == t4
    ensures Render(c1 + c2 + c3 + c4) == t1 + t2 + t3 + t4
  {
    RenderJoin3(c1, c2, c3, t1, t2, t3);
    RenderAppend(c1 + c2 + c3, c4);
  }

  lemma RenderJoin5(c1: seq<Piece>, c2: seq<Piece>, c3: seq<Piece>, c4: seq<Piece>, c5: seq<Piece>,
                    t1: string, t2: string, t3: string, t4: string, t5: string)
    requires Render(c1) == t1 && Render(c2) == t2 && Render(c3) == t3 && Render(c4) == t4 && Render(c5) == t5
    ensures Render(c1 + c2 + c3 + c4 + c5) == t1 + t2 + t3 + t4 + t5
  {
    RenderJoin4(c1, c2, c3, c4, t1, t2, t3, t4);
    RenderAppend(c1 + c2 + c3 + c4, c5);
  }

  lemma RenderJoin6(c1: seq<Piece>, c2: seq<Piece>, c3: seq<Piece>, c4: seq<Piece>, c5: seq<Piece>, c6: seq<Piece>,
                    t1: string, t2: string, t3: string, t4: string, t5: string, t6: string)
    requires Render(c1) == t1 && Render(c2) == t2 && Render(c3) == t3
    requires Render(c4) == t4 && Render(c5) == t5 && Render(c6) == t6
    ensures Render(c1 + c2 + c3 + c4 + c5 + c6) == t1 + t2 + t3 + t4 + t5 + t6
  {
    RenderJoin5(c1, c2, c3, c4, c5, t1, t2, t3, t4, t5);
    RenderAppend(c1 + c2 + c3 + c4 + c5, c6);
  }

  lemma BindJoin3(c1: seq<Piece>, c2: seq<Piece>, c3: seq<Piece>, names: map<char, string>)
    ensures Bind(c1 + c2 + c3, names) == Bind(c1, names) + Bind(c2, names) + Bind(c3, names)
  {
    BindAppend(c1, c2, names);
    BindAppend(c1 + c2, c3, names);
  }

  lemma BindJoin4(c1: seq<Piece>, c2: seq<Piece>, c3: seq<Piece>, c4: seq<Piece>, names: map<char, string>)
    ensures Bind(c1 + c2 + c3 + c4, names) == Bind(c1, names) + Bind(c2, names) + Bind(c3, names) + Bind(c4, names)
  {
    BindJoin3(c1, c2, c3, names);
    BindAppend(c1 + c2 + c3, c4, names);
  }

  lemma BindJoin5(c1: seq<Piece>, c2: seq<Piece>, c3: seq<Piece>, c4: seq<Piece>, c5: seq<Piece>, names: map<char, string>)
    ensures Bind(c1 + c2 + c3 + c4 + c5, names)
         == Bind(c1, names) + Bind(c2, names) + Bind(c3, names) + Bind(c4, names) + Bind(c5, names)
  {
    BindJoin4(c1, c2, c3, c4, names);
    BindAppend(c1 + c2 + c3 + c4, c5, names);
  }

  lemma BindJoin6(c1: seq<Piece>, c2: seq<Piece>, c3: seq<Piece>, c4: seq<Piece>, c5: seq<Piece>, c6: seq<Piece>,
                  names: map<char, string>)
    ensures Bind(c1 + c2 + c3 + c4 + c5 + c6, names)
         == Bind(c1, names) + Bind(c2, names) + Bind(c3, names) + Bind(c4, names) + Bind(c5, names) + Bind(c6, names)
  {
    BindJoin5(c1, c2, c3, c4, c5, names);
    BindAppend(c1 + c2 + c3 + c4 + c5, c6, names);
  }

  /** On packed slots, the hole of a used slot `j` is named by dependency `j`'s variable. */
  lemma SlotHole(v: Var, j: nat)
    requires SlotsPacked(v.deps, v.id) && j < 4 && v.deps[j] != -1
    ensures Digit(j) in HoleNames(v) && HoleNames(v)[Digit(j)] == VarName(v.deps[j])
  {
    HoleNamesSpec(v);
  }

  /** The names of `$v`, `$0` and `$1` for an entry whose first two slots are used. */
  lemma TwoOperandNames(v: Var)
    requires SlotsPacked(v.deps, v.id) && v.deps[1] != -1
    ensures 'v' in HoleNames(v) && HoleNames(v)['v'] == VarName(v.id)
    ensures '0' in HoleNames(v) && HoleNames(v)['0'] == VarName(v.deps[0])
    ensures '1' in HoleNames(v) && HoleNames(v)['1'] == VarName(v.deps[1])
  {
    HoleNamesSpec(v);
    SlotHole(v, 0);
    SlotHole(v, 1);
    assert Digit(0) == '0' && Digit(1) == '1';
  }

  /** The names of `$v`, `$0`, `$1` and `$2` for an entry whose first three slots are used. */
  lemma ThreeOperandNames(v: Var)
    requires SlotsPacked(v.deps, v.id) && v.deps[2] != -1
    ensures 'v' in HoleNames(v) && HoleNames(v)['v'] == VarName(v.id)
    ensures '0' in HoleNames(v) && HoleNames(v)['0'] == VarName(v.deps[0])
    ensures '1' in HoleNames(v) && HoleNames(v)['1'] == VarName(v.deps[1])
    ensures '2' in HoleNames(v) && HoleNames(v)['2'] == VarName(v.deps[2])
  {
    TwoOperandNames(v);
    SlotHole(v, 2);
    assert Digit(2) == '2';
  }

  /** The names of `$v` and `$0` for an entry whose first slot is used. */
  lemma OneOperandNames(v: Var)
    requires SlotsPacked(v.deps, v.id) && v.deps[0] != -1
    ensures 'v' in HoleNames(v) && HoleNames(v)['v'] == VarName(v.id)
    ensures '0' in HoleNames(v) && HoleNames(v)['0'] == VarName(v.deps[0])
  {
    HoleNamesSpec(v);
    SlotHole(v, 0);
    assert Digit(0) == '0';
  }

  /**
   * The names of `$v`, `$0` and `$1` for an entry with exactly two used
   * slots, packed or not: the slot loop stops at the unused slot 2.
   */
  lemma ExactlyTwoNames(v: Var)
    requires v.deps[0] != -1 && v.deps[1] != -1 && v.deps[2] == -1
    ensures 'v' in HoleNames(v) && HoleNames(v)['v'] == VarName(v.id)
    ensures '0' in HoleNames(v) && HoleNames(v)['0'] == VarName(v.deps[0])
    ensures '1' in HoleNames(v) && HoleNames(v)['1'] == VarName(v.deps[1])
  {
    assert Digit(0) == '0' && Digit(1) == '1';
    assert SlotNames(v.deps, 2) == map[];
    assert SlotNames(v.deps, 1) == map['1' := VarName(v.deps[1])];
    assert SlotNames(v.deps, 0) == map['1' := VarName(v.deps[1]), '0' := VarName(v.deps[0])];
  }

  // ---------------------------------------------------------------------
  // Leaves: `$v=<symbol>;`
  // ---------------------------------------------------------------------

  /** The forward template of a leaf as pieces. */
  function LeafForwardPieces(symbol: string): (r: seq<Piece>)
  {
    [Hole('v'), Lit("=" + symbol + ";")]
  }

  /** The pieces spell a leaf's forward template exactly; a `$`-free symbol leaves `$v` its only hole. */
  lemma LeafForwardRender(symbol: string)
    requires '$' !in symbol
    ensures Render(LeafForwardPieces(symbol)) == LeafForward(symbol)
    ensures Plain(LeafForwardPieces(symbol))
  {
    Pair(Hole('v'), Lit("=" + symbol + ";"), "$v" + ("=" + symbol + ";"));
    assert "$v=" == "$v" + "=";
    var ps := LeafForwardPieces(symbol);
    assert forall k :: 0 <= k < |ps| ==> PlainPiece(ps[k]);
  }

  /**
   * The forward statement of a leaf: the symbol (or rendered literal) is
   * assigned to the leaf's own variable.
   */
  lemma LeafSubstituted(v: Var, symbol: string)
    requires v.forward == LeafForward(symbol) && '$' !in symbol
    ensures Substituted(v.forward, v) == VarName(v.id) + "=" + symbol + ";"
  {
    var names := HoleNames(v);
    LeafForwardRender(symbol);
    SubstitutedRender(LeafForwardPieces(symbol), v);
    FillPair(Hole('v'), Lit("=" + symbol + ";"), names);
  }

  // ---------------------------------------------------------------------
  // Binary operators and comparisons: `$v = $0 <op> $1;`
  // ---------------------------------------------------------------------

  /** The forward template of a binary operator or comparison as pieces. */
  function BinaryForwardPieces(symbol: string): (r: seq<Piece>)
  {
    [Hole('v'), Lit(" = "), Hole('0'), Lit(" " + symbol + " "), Hole('1'), Lit(";")]
  }

  lemma BinaryForwardSplit(symbol: string)
    ensures BinaryForwardPieces(symbol) == [Hole('v'), Lit(" = "), Hole('0')] + [Lit(" " + symbol + " "), Hole('1'), Lit(";")]
  {
  }

  lemma BinaryForwardJoin(symbol: string)
    ensures "$v = $0" + ((" " + symbol + " ") + "$1" + ";") == BinaryForward(symbol)
  {
    assert "$v = $0 " == "$v = $0" + " ";
    assert " $1;" == " " + "$1" + ";";
  }

  /** The pieces spell the binary forward template exactly, and every `$` of it starts a hole. */
  lemma BinaryForwardRender(symbol: string)
    requires '$' !in symbol
    ensures Render(BinaryForwardPieces(symbol)) == BinaryForward(symbol)
    ensures Plain(BinaryForwardPieces(symbol))
  {
    var c1, c2 := [Hole('v'), Lit(" = "), Hole('0')], [Lit(" " + symbol + " "), Hole('1'), Lit(";")];
    BinaryForwardSplit(symbol);
    Triple(Hole('v'), Lit(" = "), Hole('0'), "$v = $0");
    Triple(Lit(" " + symbol + " "), Hole('1'), Lit(";"), (" " + symbol + " ") + "$1" + ";");
    RenderAppend(c1, c2);
    BinaryForwardJoin(symbol);
    var ps := BinaryForwardPieces(symbol);
    assert forall k :: 0 <= k < |ps| ==> PlainPiece(ps[k]);
  }

  lemma BinaryForwardFill(symbol: string, names: map<char, string>, n: string, a: string, b: string)
    requires 'v' in names && '0' in names && '1' in names
    requires names['v'] == n && names['0'] == a && names['1'] == b
    ensures Render(Bind(BinaryForwardPieces(symbol), names)) == n + " = " + a + " " + symbol + " " + b + ";"
  {
    var c1, c2 := [Hole('v'), Lit(" = "), Hole('0')], [Lit(" " + symbol + " "), Hole('1'), Lit(";")];
    BinaryForwardSplit(symbol);
    BindAppend(c1, c2, names);
    FillTriple(Hole('v'), Lit(" = "), Hole('0'), names);
    FillTriple(Lit(" " + symbol + " "), Hole('1'), Lit(";"), names);
    RenderAppend(Bind(c1, names), Bind(c2, names));
    BinaryForwardRegroup(symbol, n, a, b);
  }

  lemma BinaryForwardRegroup(symbol: string, n: string, a: string, b: string)
    ensures (n + " = " + a) + ((" " + symbol + " ") + b + ";") == n + " = " + a + " " + symbol + " " + b + ";"
  {
  }

  /**
   * The forward statement of a binary operator or comparison:
   * `v<id> = v<a> <op> v<b>;` for the entry's own id and its two dependencies.
   */
  lemma BinaryStatement(v: Var, symbol: string)
    requires v.forward == BinaryForward(symbol) && '$' !in symbol
    requires v.deps[0] != -1 && v.deps[1] != -1 && v.deps[2] == -1
    ensures Substituted(v.forward, v)
         == VarName(v.id) + " = " + VarName(v.deps[0]) + " " + symbol + " " + VarName(v.deps[1]) + ";"
  {
    BinaryForwardRender(symbol);
    SubstitutedRender(BinaryForwardPieces(symbol), v);
    ExactlyTwoNames(v);
    BinaryForwardFill(symbol, HoleNames(v), VarName(v.id), VarName(v.deps[0]), VarName(v.deps[1]));
  }

  // ---------------------------------------------------------------------
  // `+` and `-` backward: `d$0 += d$v;d$1 <sign>= d$v;`
  // ---------------------------------------------------------------------

  /** The backward template of `+` or `-` as pieces; `$v` occurs twice. */
  function AdditiveBackwardPieces(sign: string): (r: seq<Piece>)
  {
    [Lit("d"), Hole('0'), Lit(" += d"), Hole('v'), Lit(";d"), Hole('1'), Lit(" " + sign + "= d"), Hole('v'), Lit(";")]
  }

  lemma AdditiveSplit(sign: string)
    ensures AdditiveBackwardPieces(sign)
         == [Lit("d"), Hole('0'), Lit(" += d")] + [Hole('v'), Lit(";d"), Hole('1')] + [Lit(" " + sign + "= d"), Hole('v'), Lit(";")]
  {
  }

  lemma AdditiveJoin(sign: string)
    ensures "d$0 += d" + "$v;d$1" + ((" " + sign + "= d") + "$v" + ";") == AdditiveBackward(sign)
  {
    assert "d$0 += d$v;d$1 " == "d$0 += d" + "$v;d$1" + " ";
    assert "= d$v;" == "= d" + "$v" + ";";
  }

  /** The pieces spell the `+`/`-` backward template exactly, and every `$` of it starts a hole. */
  lemma AdditiveBackwardRender(sign: string)
    requires '$' !in sign
    ensures Render(AdditiveBackwardPieces(sign)) == AdditiveBackward(sign)
    ensures Plain(AdditiveBackwardPieces(sign))
  {
    var c1, c2, c3 := [Lit("d"), Hole('0'), Lit(" += d")], [Hole('v'), Lit(";d"), Hole('1')], [Lit(" " + sign + "= d"), Hole('v'), Lit(";")];
    AdditiveSplit(sign);
    Triple(Lit("d"), Hole('0'), Lit(" += d"), "d$0 += d");
    Triple(Hole('v'), Lit(";d"), Hole('1'), "$v;d$1");
    Triple(Lit(" " + sign + "= d"), Hole('v'), Lit(";"), (" " + sign + "= d") + "$v" + ";");
    RenderJoin3(c1, c2, c3, "d$0 += d", "$v;d$1", (" " + sign + "= d") + "$v" + ";");
    AdditiveJoin(sign);
    var ps := AdditiveBackwardPieces(sign);
    assert forall k :: 0 <= k < |ps| ==> PlainPiece(ps[k]);
  }

  lemma AdditiveFill(sign: string, names: map<char, string>, n: string, a: string, b: string)
    requires 'v' in names && '0' in names && '1' in names
    requires names['v'] == n && names['0'] == a && names['1'] == b
    ensures Render(Bind(AdditiveBackwardPieces(sign), names)) == "d" + a + " += d" + n + ";d" + b + " " + sign + "= d" + n + ";"
  {
    var c1, c2, c3 := [Lit("d"), Hole('0'), Lit(" += d")], [Hole('v'), Lit(";d"), Hole('1')], [Lit(" " + sign + "= d"), Hole('v'), Lit(";")];
    AdditiveSplit(sign);
    BindJoin3(c1, c2, c3, names);
    FillTriple(Lit("d"), Hole('0'), Lit(" += d"), names);
    FillTriple(Hole('v'), Lit(";d"), Hole('1'), names);
    FillTriple(Lit(" " + sign + "= d"), Hole('v'), Lit(";"), names);
    RenderJoin3(Bind(c1, names), Bind(c2, names), Bind(c3, names), "d" + a + " += d", n + ";d" + b, (" " + sign + "= d") + n + ";");
    AdditiveRegroup(sign, n, a, b);
  }

  lemma AdditiveRegroup(sign: string, n: string, a: string, b: string)
    ensures ("d" + a + " += d") + (n + ";d" + b) + ((" " + sign + "= d") + n + ";")
         == "d" + a + " += d" + n + ";d" + b + " " + sign + "= d" + n + ";"
  {
  }

  /**
   * The backward statement of `+` and `-`: the first operand's adjoint
   * gains the result's adjoint, the second's is updated with `sign`.
   */
  lemma AdditiveAdjoint(v: Var, sign: string)
    requires v.backward == AdditiveBackward(sign) && '$' !in sign
    requires v.deps[0] != -1 && v.deps[1] != -1 && v.deps[2] == -1
    ensures Substituted(v.backward, v)
         == "d" + VarName(v.deps[0]) + " += d" + VarName(v.id) + ";d" + VarName(v.deps[1]) + " " + sign + "= d" + VarName(v.id) + ";"
  {
    AdditiveBackwardRender(sign);
    SubstitutedRender(AdditiveBackwardPieces(sign), v);
    ExactlyTwoNames(v);
    AdditiveFill(sign, HoleNames(v), VarName(v.id), VarName(v.deps[0]), VarName(v.deps[1]));
  }

  // ---------------------------------------------------------------------
  // `*` backward: `d$0 += d$v * $1;d$1 += d$v * $0;`
  // ---------------------------------------------------------------------

  /** The `*` backward template as pieces. */
  function MulBackwardPieces(): (r: seq<Piece>)
  {
    [Lit("d"), Hole('0'), Lit(" += d"), Hole('v'), Lit(" * "), Hole('1'),
     Lit(";d"), Hole('1'), Lit(" += d"), Hole('v'), Lit(" * "), Hole('0'), Lit(";")]
  }

  lemma MulSplit()
    ensures MulBackwardPieces()
         == [Lit("d"), Hole('0'), Lit(" += d")] + [Hole('v'), Lit(" * "), Hole('1')] + [Lit(";d"), Hole('1'), Lit(" += d")]
          + [Hole('v'), Lit(" * ")] + [Hole('0'), Lit(";")]
  {
  }

  lemma MulChunks()
    ensures Render([Lit("d"), Hole('0'), Lit(" += d")]) == "d$0 += d"
    ensures Render([Hole('v'), Lit(" * "), Hole('1')]) == "$v * $1"
    ensures Render([Lit(";d"), Hole('1'), Lit(" += d")]) == ";d$1 += d"
    ensures Render([Hole('v'), Lit(" * ")]) == "$v * "
    ensures Render([Hole('0'), Lit(";")]) == "$0;"
  {
    Triple(Lit("d"), Hole('0'), Lit(" += d"), "d$0 += d");
    Triple(Hole('v'), Lit(" * "), Hole('1'), "$v * $1");
    Triple(Lit(";d"), Hole('1'), Lit(" += d"), ";d$1 += d");
    Pair(Hole('v'), Lit(" * "), "$v * ");
    Pair(Hole('0'), Lit(";"), "$0;");
  }

  lemma MulJoin()
    ensures "d$0 += d" + "$v * $1" + ";d$1 += d" + "$v * " + "$0;" == ArithBackward(Mul)
  {
  }

  /** The pieces spell the `*` backward template exactly, and every `$` of it starts a hole. */
  lemma MulBackwardRender()
    ensures Render(MulBackwardPieces()) == ArithBackward(Mul)
    ensures Plain(MulBackwardPieces())
  {
    MulChunks();
    MulSplit();
    RenderJoin5([Lit("d"), Hole('0'), Lit(" += d")], [Hole('v'), Lit(" * "), Hole('1')], [Lit(";d"), Hole('1'), Lit(" += d")],
                [Hole('v'), Lit(" * ")], [Hole('0'), Lit(";")],
                "d$0 += d", "$v * $1", ";d$1 += d", "$v * ", "$0;");
    MulJoin();
    MulPlain();
  }

  lemma MulPlain()
    ensures Plain(MulBackwardPieces())
  {
  }

  lemma MulFill(names: map<char, string>, n: string, a: string, b: string)
    requires 'v' in names && '0' in names && '1' in names
    requires names['v'] == n && names['0'] == a && names['1'] == b
    ensures Render(Bind(MulBackwardPieces(), names))
         == "d" + a + " += d" + n + " * " + b + ";d" + b + " += d" + n + " * " + a + ";"
  {
    var c1, c2, c3 := [Lit("d"), Hole('0'), Lit(" += d")], [Hole('v'), Lit(" * "), Hole('1')], [Lit(";d"), Hole('1'), Lit(" += d")];
    var c4, c5 := [Hole('v'), Lit(" * ")], [Hole('0'), Lit(";")];
    MulSplit();
    BindJoin5(c1, c2, c3, c4, c5, names);
    FillTriple(Lit("d"), Hole('0'), Lit(" += d"), names);
    FillTriple(Hole('v'), Lit(" * "), Hole('1'), names);
    FillTriple(Lit(";d"), Hole('1'), Lit(" += d"), names);
    FillPair(Hole('v'), Lit(" * "), names);
    FillPair(Hole('0'), Lit(";"), names);
    RenderJoin5(Bind(c1, names), Bind(c2, names), Bind(c3, names), Bind(c4, names), Bind(c5, names),
                "d" + a + " += d", n + " * " + b, ";d" + b + " += d", n + " * ", a + ";");
    MulRegroup(n, a, b);
  }

  lemma MulRegroup(n: string, a: string, b: string)
    ensures ("d" + a + " += d") + (n + " * " + b) + (";d" + b + " += d") + (n + " * ") + (a + ";")
         == "d" + a + " += d" + n + " * " + b + ";d" + b + " += d" + n + " * " + a + ";"
  {
  }

  /**
   * The backward statement of `a * b`: each operand's adjoint gains the
   * result's adjoint times the other operand.
   */
  lemma MulAdjoints(v: Var)
    requires SlotsPacked(v.deps, v.id) && v.deps[1] != -1
    ensures Substituted(ArithBackward(Mul), v)
         == "d" + VarName(v.deps[0]) + " += d" + VarName(v.id) + " * " + VarName(v.deps[1])
          + ";d" + VarName(v.deps[1]) + " += d" + VarName(v.id) + " * " + VarName(v.deps[0]) + ";"
  {
    MulBackwardRender();
    SubstitutedRender(MulBackwardPieces(), v);
    TwoOperandNames(v);
    MulFill(HoleNames(v), VarName(v.id), VarName(v.deps[0]), VarName(v.deps[1]));
  }

  // ---------------------------------------------------------------------
  // `/` backward: `d$0 += d$v / $1;d$1 += d$v * $0 / ($1 * $1);`
  // ---------------------------------------------------------------------

  /** The `/` backward template as pieces; the hole `$1` occurs four times. */
  function DivBackwardPieces(): (r: seq<Piece>)
  {
    [Lit("d"), Hole('0'), Lit(" += d"), Hole('v'), Lit(" / "), Hole('1'),
     Lit(";d"), Hole('1'), Lit(" += d"), Hole('v'), Lit(" * "), Hole('0'),
     Lit(" / ("), Hole('1'), Lit(" * "), Hole('1'), Lit(");")]
  }

  lemma DivSplit()
    ensures DivBackwardPieces()
         == [Lit("d"), Hole('0'), Lit(" += d")] + [Hole('v'), Lit(" / "), Hole('1')] + [Lit(";d"), Hole('1'), Lit(" += d")]
          + [Hole('v'), Lit(" * "), Hole('0')] + [Lit(" / ("), Hole('1'), Lit(" * ")] + [Hole('1'), Lit(");")]
  {
  }

  lemma DivChunks()
    ensures Render([Lit("d"), Hole('0'), Lit(" += d")]) == "d$0 += d"
    ensures Render([Hole('v'), Lit(" / "), Hole('1')]) == "$v / $1"
    ensures Render([Lit(";d"), Hole('1'), Lit(" += d")]) == ";d$1 += d"
    ensures Render([Hole('v'), Lit(" * "), Hole('0')]) == "$v * $0"
    ensures Render([Lit(" / ("), Hole('1'), Lit(" * ")]) == " / ($1 * "
    ensures Render([Hole('1'), Lit(");")]) == "$1);"
  {
    Triple(Lit("d"), Hole('0'), Lit(" += d"), "d$0 += d");
    Triple(Hole('v'), Lit(" / "), Hole('1'), "$v / $1");
    Triple(Lit(";d"), Hole('1'), Lit(" += d"), ";d$1 += d");
    Triple(Hole('v'), Lit(" * "), Hole('0'), "$v * $0");
    Triple(Lit(" / ("), Hole('1'), Lit(" * "), " / ($1 * ");
    Pair(Hole('1'), Lit(");"), "$1);");
  }

  lemma DivJoin()
    ensures "d$0 += d" + "$v / $1" + ";d$1 += d" + "$v * $0" + " / ($1 * " + "$1);" == ArithBackward(Div)
  {
  }

  /** The pieces spell the `/` backward template exactly, and every `$` of it starts a hole. */
  lemma DivBackwardRender()
    ensures Render(DivBackwardPieces()) == ArithBackward(Div)
    ensures Plain(DivBackwardPieces())
  {
    DivChunks();
    DivSplit();
    RenderJoin6([Lit("d"), Hole('0'), Lit(" += d")], [Hole('v'), Lit(" / "), Hole('1')], [Lit(";d"), Hole('1'), Lit(" += d")],
                [Hole('v'), Lit(" * "), Hole('0')], [Lit(" / ("), Hole('1'), Lit(" * ")], [Hole('1'), Lit(");")],
                "d$0 += d", "$v / $1", ";d$1 += d", "$v * $0", " / ($1 * ", "$1);");
    DivJoin();
    DivPlain();
  }

  lemma DivPlain()
    ensures Plain(DivBackwardPieces())
  {
  }

  lemma DivFill(names: map<char, string>, n: string, a: string, b: string)
    requires 'v' in names && '0' in names && '1' in names
    requires names['v'] == n && names['0'] == a && names['1'] == b
    ensures Render(Bind(DivBackwardPieces(), names))
         == "d" + a + " += d" + n + " / " + b + ";d" + b + " += d" + n + " * " + a + " / (" + b + " * " + b + ");"
  {
    var c1, c2, c3 := [Lit("d"), Hole('0'), Lit(" += d")], [Hole('v'), Lit(" / "), Hole('1')], [Lit(";d"), Hole('1'), Lit(" += d")];
    var c4, c5, c6 := [Hole('v'), Lit(" * "), Hole('0')], [Lit(" / ("), Hole('1'), Lit(" * ")], [Hole('1'), Lit(");")];
    DivSplit();
    BindJoin6(c1, c2, c3, c4, c5, c6, names);
    FillTriple(Lit("d"), Hole('0'), Lit(" += d"), names);
    FillTriple(Hole('v'), Lit(" / "), Hole('1'), names);
    FillTriple(Lit(";d"), Hole('1'), Lit(" += d"), names);
    FillTriple(Hole('v'), Lit(" * "), Hole('0'), names);
    FillTriple(Lit(" / ("), Hole('1'), Lit(" * "), names);
    FillPair(Hole('1'), Lit(");"), names);
    RenderJoin6(Bind(c1, names), Bind(c2, names), Bind(c3, names), Bind(c4, names), Bind(c5, names), Bind(c6, names),
                "d" + a + " += d", n + " / " + b, ";d" + b + " += d", n + " * " + a, " / (" + b + " * ", b + ");");
    DivRegroup(n, a, b);
  }

  lemma DivRegroup(n: string, a: string, b: string)
    ensures ("d" + a + " += d") + (n + " / " + b) + (";d" + b + " += d") + (n + " * " + a) + (" / (" + b + " * ") + (b + ");")
         == "d" + a + " += d" + n + " / " + b + ";d" + b + " += d" + n + " * " + a + " / (" + b + " * " + b + ");"
  {
  }

  /**
   * The backward statement of `a / b`: `a`'s adjoint gains the result's
   * adjoint over `b`, and `b`'s gains it times `a` over `b * b`, with
   * every one of the four `$1` replaced.
   */
  lemma DivAdjoints(v: Var)
    requires SlotsPacked(v.deps, v.id) && v.deps[1] != -1
    ensures Substituted(ArithBackward(Div), v)
         == "d" + VarName(v.deps[0]) + " += d" + VarName(v.id) + " / " + VarName(v.deps[1])
          + ";d" + VarName(v.deps[1]) + " += d" + VarName(v.id) + " * " + VarName(v.deps[0])
          + " / (" + VarName(v.deps[1]) + " * " + VarName(v.deps[1]) + ");"
  {
    DivBackwardRender();
    SubstitutedRender(DivBackwardPieces(), v);
    TwoOperandNames(v);
    DivFill(HoleNames(v), VarName(v.id), VarName(v.deps[0]), VarName(v.deps[1]));
  }

  // ---------------------------------------------------------------------
  // `select`: `$v = $0 ? $1 : $2;` and `if($0){d$1 += d$v;}else{d$2 += d$v;}`
  // ---------------------------------------------------------------------

  /** The `select` forward template as pieces. */
  function SelectForwardPieces(): (r: seq<Piece>)
  {
    [Hole('v'), Lit(" = "), Hole('0'), Lit(" ? "), Hole('1'), Lit(" : "), Hole('2'), Lit(";")]
  }

  lemma SelectForwardSplit()
    ensures SelectForwardPieces()
         == [Hole('v'), Lit(" = "), Hole('0')] + [Lit(" ? "), Hole('1'), Lit(" : ")] + [Hole('2'), Lit(";")]
  {
  }

  lemma SelectForwardChunks()
    ensures Render([Hole('v'), Lit(" = "), Hole('0')]) == "$v = $0"
    ensures Render([Lit(" ? "), Hole('1'), Lit(" : ")]) == " ? $1 : "
    ensures Render([Hole('2'), Lit(";")]) == "$2;"
  {
    Triple(Hole('v'), Lit(" = "), Hole('0'), "$v = $0");
    Triple(Lit(" ? "), Hole('1'), Lit(" : "), " ? $1 : ");
    Pair(Hole('2'), Lit(";"), "$2;");
  }

  lemma SelectForwardJoin()
    ensures "$v = $0" + " ? $1 : " + "$2;" == SelectForward()
  {
  }

  /** The pieces spell the `select` forward template exactly, and every `$` of it starts a hole. */
  lemma SelectForwardRender()
    ensures Render(SelectForwardPieces()) == SelectForward()
    ensures Plain(SelectForwardPieces())
  {
    SelectForwardChunks();
    SelectForwardSplit();
    RenderJoin3([Hole('v'), Lit(" = "), Hole('0')], [Lit(" ? "), Hole('1'), Lit(" : ")], [Hole('2'), Lit(";")],
                "$v = $0", " ? $1 : ", "$2;");
    SelectForwardJoin();
    SelectForwardPlain();
  }

  lemma SelectForwardPlain()
    ensures Plain(SelectForwardPieces())
  {
  }

  lemma SelectForwardFill(names: map<char, string>, n: string, c: string, a: string, b: string)
    requires 'v' in names && '0' in names && '1' in names && '2' in names
    requires names['v'] == n && names['0'] == c && names['1'] == a && names['2'] == b
    ensures Render(Bind(SelectForwardPieces(), names)) == n + " = " + c + " ? " + a + " : " + b + ";"
  {
    var c1, c2, c3 := [Hole('v'), Lit(" = "), Hole('0')], [Lit(" ? "), Hole('1'), Lit(" : ")], [Hole('2'), Lit(";")];
    SelectForwardSplit();
    BindJoin3(c1, c2, c3, names);
    FillTriple(Hole('v'), Lit(" = "), Hole('0'), names);
    FillTriple(Lit(" ? "), Hole('1'), Lit(" : "), names);
    FillPair(Hole('2'), Lit(";"), names);
    RenderJoin3(Bind(c1, names), Bind(c2, names), Bind(c3, names), n + " = " + c, " ? " + a + " : ", b + ";");
    SelectForwardRegroup(n, c, a, b);
  }

  lemma SelectForwardRegroup(n: string, c: string, a: string, b: string)
    ensures (n + " = " + c) + (" ? " + a + " : ") + (b + ";") == n + " = " + c + " ? " + a + " : " + b + ";"
  {
  }

  /**
   * The forward statement of `select(cond, a, b)`: the result is the
   * conditional expression over the three dependencies in argument order.
   */
  lemma SelectStatement(v: Var)
    requires SlotsPacked(v.deps, v.id) && v.deps[2] != -1
    ensures Substituted(SelectForward(), v)
         == VarName(v.id) + " = " + VarName(v.deps[0]) + " ? " + VarName(v.deps[1]) + " : " + VarName(v.deps[2]) + ";"
  {
    SelectForwardRender();
    SubstitutedRender(SelectForwardPieces(), v);
    ThreeOperandNames(v);
    SelectForwardFill(HoleNames(v), VarName(v.id), VarName(v.deps[0]), VarName(v.deps[1]), VarName(v.deps[2]));
  }

  /** The `select` backward template as pieces; `$v` occurs in both branches. */
  function SelectBackwardPieces(): (r: seq<Piece>)
  {
    [Lit("if("), Hole('0'), Lit("){d"), Hole('1'), Lit(" += d"), Hole('v'),
     Lit(";}else{d"), Hole('2'), Lit(" += d"), Hole('v'), Lit(";}")]
  }

  lemma SelectBackwardSplit()
    ensures SelectBackwardPieces()
         == [Lit("if("), Hole('0'), Lit("){d")] + [Hole('1'), Lit(" += d"), Hole('v')]
          + [Lit(";}else{d"), Hole('2'), Lit(" += d")] + [Hole('v'), Lit(";}")]
  {
  }

  lemma SelectBackwardChunks()
    ensures Render([Lit("if("), Hole('0'), Lit("){d")]) == "if($0){d"
    ensures Render([Hole('1'), Lit(" += d"), Hole('v')]) == "$1 += d$v"
    ensures Render([Lit(";}else{d"), Hole('2'), Lit(" += d")]) == ";}else{d$2 += d"
    ensures Render([Hole('v'), Lit(";}")]) == "$v;}"
  {
    Triple(Lit("if("), Hole('0'), Lit("){d"), "if($0){d");
    Triple(Hole('1'), Lit(" += d"), Hole('v'), "$1 += d$v");
    Triple(Lit(";}else{d"), Hole('2'), Lit(" += d"), ";}else{d$2 += d");
    Pair(Hole('v'), Lit(";}"), "$v;}");
  }

  lemma SelectBackwardJoin()
    ensures "if($0){d" + "$1 += d$v" + ";}else{d$2 += d" + "$v;}" == SelectBackward()
  {
  }

  /** The pieces spell the `select` backward template exactly, and every `$` of it starts a hole. */
  lemma SelectBackwardRender()
    ensures Render(SelectBackwardPieces()) == SelectBackward()
    ensures Plain(SelectBackwardPieces())
  {
    SelectBackwardChunks();
    SelectBackwardSplit();
    RenderJoin4([Lit("if("), Hole('0'), Lit("){d")], [Hole('1'), Lit(" += d"), Hole('v')],
                [Lit(";}else{d"), Hole('2'), Lit(" += d")], [Hole('v'), Lit(";}")],
                "if($0){d", "$1 += d$v", ";}else{d$2 += d", "$v;}");
    SelectBackwardJoin();
    SelectBackwardPlain();
  }

  lemma SelectBackwardPlain()
    ensures Plain(SelectBackwardPieces())
  {
  }

  lemma SelectBackwardFill(names: map<char, string>, n: string, c: string, a: string, b: string)
    requires 'v' in names && '0' in names && '1' in names && '2' in names
    requires names['v'] == n && names['0'] == c && names['1'] == a && names['2'] == b
    ensures Render(Bind(SelectBackwardPieces(), names))
         == "if(" + c + "){d" + a + " += d" + n + ";}else{d" + b + " += d" + n + ";}"
  {
    var c1, c2 := [Lit("if("), Hole('0'), Lit("){d")], [Hole('1'), Lit(" += d"), Hole('v')];
    var c3, c4 := [Lit(";}else{d"), Hole('2'), Lit(" += d")], [Hole('v'), Lit(";}")];
    SelectBackwardSplit();
    BindJoin4(c1, c2, c3, c4, names);
    FillTriple(Lit("if("), Hole('0'), Lit("){d"), names);
    FillTriple(Hole('1'), Lit(" += d"), Hole('v'), names);
    FillTriple(Lit(";}else{d"), Hole('2'), Lit(" += d"), names);
    FillPair(Hole('v'), Lit(";}"), names);
    RenderJoin4(Bind(c1, names), Bind(c2, names), Bind(c3, names), Bind(c4, names),
                "if(" + c + "){d", a + " += d" + n, ";}else{d" + b + " += d", n + ";}");
    SelectBackwardRegroup(n, c, a, b);
  }

  lemma SelectBackwardRegroup(n: string, c: string, a: string, b: string)
    ensures ("if(" + c + "){d") + (a + " += d" + n) + (";}else{d" + b + " += d") + (n + ";}")
         == "if(" + c + "){d" + a + " += d" + n + ";}else{d" + b + " += d" + n + ";}"
  {
  }

  /**
   * The backward statement of `select(cond, a, b)`: at run time the
   * result's adjoint flows to the branch the condition chose, and only there.
   */
  lemma SelectAdjoints(v: Var)
    requires SlotsPacked(v.deps, v.id) && v.deps[2] != -1
    ensures Substituted(SelectBackward(), v)
         == "if(" + VarName(v.deps[0]) + "){d" + VarName(v.deps[1]) + " += d" + VarName(v.id)
          + ";}else{d" + VarName(v.deps[2]) + " += d" + VarName(v.id) + ";}"
  {
    SelectBackwardRender();
    SubstitutedRender(SelectBackwardPieces(), v);
    ThreeOperandNames(v);
    SelectBackwardFill(HoleNames(v), VarName(v.id), VarName(v.deps[0]), VarName(v.deps[1]), VarName(v.deps[2]));
  }

  // ---------------------------------------------------------------------
  // Negation and the five math functions.
  // ---------------------------------------------------------------------

  /** What a unary operation writes before its operand: `-` or `std::<name>(`. */
  function UnaryOpen(op: UnaryOp): (r: string)
  {
    match op
    case Neg => "-"
    case Sin => "std::sin("
    case Cos => "std::cos("
    case Log => "std::log("
    case Exp => "std::exp("
    case Sqrt => "std::sqrt("
  }

  /** What a unary operation writes after its operand: nothing for `-`, else `)`. */
  function UnaryClose(op: UnaryOp): (r: string)
  {
    if op == Neg then "" else ")"
  }

  /** The forward template of a unary operation as pieces: `$v = <open>$0<close>;`. */
  function UnaryForwardPieces(op: UnaryOp): (r: seq<Piece>)
  {
    [Hole('v'), Lit(" = " + UnaryOpen(op)), Hole('0'), Lit(UnaryClose(op) + ";")]
  }

  lemma UnaryForwardSplit(op: UnaryOp)
    ensures UnaryForwardPieces(op) == [Hole('v'), Lit(" = " + UnaryOpen(op))] + [Hole('0'), Lit(UnaryClose(op) + ";")]
  {
  }

  /** The pieces spell each unary forward template exactly, and every `$` of it starts a hole. */
  lemma UnaryForwardRender(op: UnaryOp)
    ensures Render(UnaryForwardPieces(op)) == UnaryForward(op)
    ensures Plain(UnaryForwardPieces(op))
  {
    var open, close := " = " + UnaryOpen(op), UnaryClose(op) + ";";
    UnaryForwardSplit(op);
    Pair(Hole('v'), Lit(open), "$v" + open);
    Pair(Hole('0'), Lit(close), "$0" + close);
    RenderAppend([Hole('v'), Lit(open)], [Hole('0'), Lit(close)]);
    UnaryForwardJoin(op);
    UnaryForwardPlain(op);
  }

  lemma UnaryForwardPlain(op: UnaryOp)
    ensures Plain(UnaryForwardPieces(op))
  {
    assert '$' !in UnaryOpen(op) && '$' !in UnaryClose(op);
  }

  lemma UnaryForwardJoin(op: UnaryOp)
    ensures ("$v" + (" = " + UnaryOpen(op))) + ("$0" + (UnaryClose(op) + ";")) == UnaryForward(op)
  {
    match op
    case Neg => NegTexts();
    case Sin => SinTexts();
    case Cos => CosTexts();
    case Log => LogTexts();
    case Exp => ExpTexts();
    case Sqrt => SqrtTexts();
  }

  // Each operation's two templates, spelled the way its pieces render.

  lemma NegTexts()
    ensures ("$v" + (" = " + "-")) + ("$0" + ("" + ";")) == UnaryForward(Neg)
    ensures "d$0 += -d" + "$v;" == UnaryBackward(Neg)
  {
  }

  lemma SinTexts()
    ensures ("$v" + (" = " + "std::sin(")) + ("$0" + (")" + ";")) == UnaryForward(Sin)
    ensures "d$0 += d" + ("$v" + " * std::cos(") + (['$', '0'] + (")" + ";")) == UnaryBackward(Sin)
  {
  }

  lemma CosTexts()
    ensures ("$v" + (" = " + "std::cos(")) + ("$0" + (")" + ";")) == UnaryForward(Cos)
    ensures "d$0 += d" + ("$v" + " * std::sin(") + (['$', '0'] + (")" + ";")) == UnaryBackward(Cos)
  {
  }

  lemma LogTexts()
    ensures ("$v" + (" = " + "std::log(")) + ("$0" + (")" + ";")) == UnaryForward(Log)
    ensures "d$0 += d" + ("$v" + " / ") + (['$', '0'] + ("" + ";")) == UnaryBackward(Log)
  {
  }

  lemma ExpTexts()
    ensures ("$v" + (" = " + "std::exp(")) + ("$0" + (")" + ";")) == UnaryForward(Exp)
    ensures "d$0 += d" + ("$v" + " * ") + (['$', 'v'] + ("" + ";")) == UnaryBackward(Exp)
  {
  }

  lemma SqrtTexts()
    ensures ("$v" + (" = " + "std::sqrt(")) + ("$0" + (")" + ";")) == UnaryForward(Sqrt)
    ensures "d$0 += d" + ("$v" + " * 0.5 / ") + (['$', 'v'] + ("" + ";")) == UnaryBackward(Sqrt)
  {
  }

  lemma UnaryForwardFill(op: UnaryOp, names: map<char, string>, n: string, a: string)
    requires 'v' in names && '0' in names && names['v'] == n && names['0'] == a
    ensures Render(Bind(UnaryForwardPieces(op), names)) == n + " = " + UnaryOpen(op) + a + UnaryClose(op) + ";"
  {
    var open, close := " = " + UnaryOpen(op), UnaryClose(op) + ";";
    UnaryForwardSplit(op);
    BindAppend([Hole('v'), Lit(open)], [Hole('0'), Lit(close)], names);
    FillPair(Hole('v'), Lit(open), names);
    FillPair(Hole('0'), Lit(close), names);
    RenderAppend(Bind([Hole('v'), Lit(open)], names), Bind([Hole('0'), Lit(close)], names));
    UnaryForwardRegroup(UnaryOpen(op), UnaryClose(op), n, a);
  }

  lemma UnaryForwardRegroup(open: string, close: string, n: string, a: string)
    ensures (n + (" = " + open)) + (a + (close + ";")) == n + " = " + open + a + close + ";"
  {
  }

  /**
   * The forward statement of a unary operation: the result is assigned
   * the operation applied to the dependency's variable, `-a` or `std::f(a)`.
   */
  lemma UnaryStatement(v: Var, op: UnaryOp)
    requires SlotsPacked(v.deps, v.id) && v.deps[0] != -1
    ensures Substituted(UnaryForward(op), v)
         == VarName(v.id) + " = " + UnaryOpen(op) + VarName(v.deps[0]) + UnaryClose(op) + ";"
  {
    UnaryForwardRender(op);
    SubstitutedRender(UnaryForwardPieces(op), v);
    OneOperandNames(v);
    UnaryForwardFill(op, HoleNames(v), VarName(v.id), VarName(v.deps[0]));
  }

  /**
   * The term a unary operation's backward rule adds to the adjoint of its
   * operand `x`, where `n` is the result's variable, as the header writes it.
   */
  function UnaryAdjoint(op: UnaryOp, n: string, x: string): (r: string)
  {
    match op
    case Neg => "-d" + n
    case Sin => "d" + n + " * std::cos(" + x + ")"
    case Cos => "d" + n + " * std::sin(" + x + ")"
    case Log => "d" + n + " / " + x
    case Exp => "d" + n + " * " + n
    case Sqrt => "d" + n + " * 0.5 / " + n
  }

  /** A chain-rule template `d$0 += d$v<mid>$<h><close>;`. */
  function ChainPieces(mid: string, h: char, close: string): (r: seq<Piece>)
  {
    [Lit("d"), Hole('0'), Lit(" += d"), Hole('v'), Lit(mid), Hole(h), Lit(close + ";")]
  }

  /** The backward template of a unary operation as pieces. */
  function UnaryBackwardPieces(op: UnaryOp): (r: seq<Piece>)
  {
    match op
    case Neg => [Lit("d"), Hole('0'), Lit(" += -d"), Hole('v'), Lit(";")]
    case Sin => ChainPieces(" * std::cos(", '0', ")")
    case Cos => ChainPieces(" * std::sin(", '0', ")")
    case Log => ChainPieces(" / ", '0', "")
    case Exp => ChainPieces(" * ", 'v', "")
    case Sqrt => ChainPieces(" * 0.5 / ", 'v', "")
  }

  lemma ChainSplit(mid: string, h: char, close: string)
    ensures ChainPieces(mid, h, close)
         == [Lit("d"), Hole('0'), Lit(" += d")] + [Hole('v'), Lit(mid)] + [Hole(h), Lit(close + ";")]
  {
  }

  lemma ChainRender(mid: string, h: char, close: string)
    requires '$' !in mid && '$' !in close && h != '$'
    ensures Render(ChainPieces(mid, h, close)) == "d$0 += d" + ("$v" + mid) + (['$', h] + (close + ";"))
    ensures Plain(ChainPieces(mid, h, close))
  {
    ChainSplit(mid, h, close);
    Triple(Lit("d"), Hole('0'), Lit(" += d"), "d$0 += d");
    Pair(Hole('v'), Lit(mid), "$v" + mid);
    Pair(Hole(h), Lit(close + ";"), ['$', h] + (close + ";"));
    RenderJoin3([Lit("d"), Hole('0'), Lit(" += d")], [Hole('v'), Lit(mid)], [Hole(h), Lit(close + ";")],
                "d$0 += d", "$v" + mid, ['$', h] + (close + ";"));
    var ps := ChainPieces(mid, h, close);
    assert forall k :: 0 <= k < |ps| ==> PlainPiece(ps[k]);
  }

  lemma NegSplit()
    ensures UnaryBackwardPieces(Neg) == [Lit("d"), Hole('0'), Lit(" += -d")] + [Hole('v'), Lit(";")]
  {
  }

  lemma NegRender()
    ensures Render(UnaryBackwardPieces(Neg)) == UnaryBackward(Neg)
    ensures Plain(UnaryBackwardPieces(Neg))
  {
    NegSplit();
    Triple(Lit("d"), Hole('0'), Lit(" += -d"), "d$0 += -d");
    Pair(Hole('v'), Lit(";"), "$v;");
    RenderAppend([Lit("d"), Hole('0'), Lit(" += -d")], [Hole('v'), Lit(";")]);
    NegTexts();
  }

  /** The pieces spell each unary backward template exactly, and every `$` of it starts a hole. */
  lemma UnaryBackwardRender(op: UnaryOp)
    ensures Render(UnaryBackwardPieces(op)) == UnaryBackward(op)
    ensures Plain(UnaryBackwardPieces(op))
  {
    match op
    case Neg => NegRender();
    case Sin =>
      ChainRender(" * std::cos(", '0', ")");
      SinTexts();
    case Cos =>
      ChainRender(" * std::sin(", '0', ")");
      CosTexts();
    case Log =>
      ChainRender(" / ", '0', "");
      LogTexts();
    case Exp =>
      ChainRender(" * ", 'v', "");
      ExpTexts();
    case Sqrt =>
      ChainRender(" * 0.5 / ", 'v', "");
      SqrtTexts();
  }

  lemma ChainFill(mid: string, h: char, close: string, names: map<char, string>, n: string, a: string, y: string)
    requires 'v' in names && '0' in names && h in names
    requires names['v'] == n && names['0'] == a && names[h] == y
    ensures Render(Bind(ChainPieces(mid, h, close), names))
         == "d" + a + " += " + ("d" + n + mid + y + close) + ";"
  {
    var c1, c2, c3 := [Lit("d"), Hole('0'), Lit(" += d")], [Hole('v'), Lit(mid)], [Hole(h), Lit(close + ";")];
    ChainSplit(mid, h, close);
    BindJoin3(c1, c2, c3, names);
    FillTriple(Lit("d"), Hole('0'), Lit(" += d"), names);
    FillPair(Hole('v'), Lit(mid), names);
    FillPair(Hole(h), Lit(close + ";"), names);
    RenderJoin3(Bind(c1, names), Bind(c2, names), Bind(c3, names), "d" + a + " += d", n + mid, y + (close + ";"));
    ChainRegroup(mid, close, n, a, y);
  }

  lemma ChainRegroup(mid: string, close: string, n: string, a: string, y: string)
    ensures ("d" + a + " += d") + (n + mid) + (y + (close + ";")) == "d" + a + " += " + ("d" + n + mid + y + close) + ";"
  {
    assert " += d" == " += " + "d";
  }

  lemma NegFill(names: map<char, string>, n: string, a: string)
    requires 'v' in names && '0' in names && names['v'] == n && names['0'] == a
    ensures Render(Bind(UnaryBackwardPieces(Neg), names)) == "d" + a + " += " + ("-d" + n) + ";"
  {
    NegSplit();
    BindAppend([Lit("d"), Hole('0'), Lit(" += -d")], [Hole('v'), Lit(";")], names);
    FillTriple(Lit("d"), Hole('0'), Lit(" += -d"), names);
    FillPair(Hole('v'), Lit(";"), names);
    RenderAppend(Bind([Lit("d"), Hole('0'), Lit(" += -d")], names), Bind([Hole('v'), Lit(";")], names));
    NegRegroup(n, a);
  }

  lemma NegRegroup(n: string, a: string)
    ensures ("d" + a + " += -d") + (n + ";") == "d" + a + " += " + ("-d" + n) + ";"
  {
    assert " += -d" == " += " + "-d";
  }

  lemma UnaryBackwardFill(op: UnaryOp, names: map<char, string>, n: string, a: string)
    requires 'v' in names && '0' in names && names['v'] == n && names['0'] == a
    ensures Render(Bind(UnaryBackwardPieces(op), names)) == "d" + a + " += " + UnaryAdjoint(op, n, a) + ";"
  {
    match op
    case Neg => NegFill(names, n, a);
    case Sin => ChainFill(" * std::cos(", '0', ")", names, n, a, a);
    case Cos => ChainFill(" * std::sin(", '0', ")", names, n, a, a);
    case Log => ChainFill(" / ", '0', "", names, n, a, a);
    case Exp => ChainFill(" * ", 'v', "", names, n, a, n);
    case Sqrt => ChainFill(" * 0.5 / ", 'v', "", names, n, a, n);
  }

  /**
   * The backward statement of a unary operation: the operand's adjoint
   * gains the operation's term, with `$v` and `$0` filled wherever they
   * occur (twice for `exp` and `sqrt`, whose terms reuse the result).
   */
  lemma UnaryAdjoints(v: Var, op: UnaryOp)
    requires SlotsPacked(v.deps, v.id) && v.deps[0] != -1
    ensures Substituted(UnaryBackward(op), v)
         == "d" + VarName(v.deps[0]) + " += " + UnaryAdjoint(op, VarName(v.id), VarName(v.deps[0])) + ";"
  {
    UnaryBackwardRender(op);
    SubstitutedRender(UnaryBackwardPieces(op), v);
    OneOperandNames(v);
    UnaryBackwardFill(op, HoleNames(v), VarName(v.id), VarName(v.deps[0]));
  }
}
