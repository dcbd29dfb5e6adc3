/**
 * What the two emission passes write, as functions of the tape: the
 * placeholder substitution applied to one entry's template, the
 * declaration pair and forward statement of an entry (tape order) and its
 * backward statement (reverse tape order), and the adjoint name a caller
 * asks for. The recorder's methods are proved to append exactly this text.
 */
module Emit {
  import opened Wrappers
  import opened ScalarTypes
  import opened Text
  import opened Tape

  /** The generated variable of entry `id`: `v<id>`. */
  function VarName(id: int): (r: string)
  {
    "v" + IntToStr(id)
  }

  /** A generated name never holds the sigil, so it is a valid replacement text. */
  lemma VarNamePlain(id: int)
    ensures '$' !in VarName(id)
  {
    IntToStrPlain(id);
  }

  /** The placeholder for dependency slot `i`: `$<i>`. */
  function Placeholder(i: nat): (r: string)
    ensures '$' in r
  {
    "$" + IntToStr(i)
  }

  /**
   * `gradients`: the name of a handle's adjoint variable, for the caller
   * to splice into its own code.
   */
  function Gradients(h: Handle): (r: string)
  {
    "d" + VarName(h.id)
  }

  /** Distinct recorded entries have distinct adjoint names. */
  lemma GradientsInjective(a: Handle, b: Handle)
    requires a.id >= 0 && b.id >= 0
    requires Gradients(a) == Gradients(b)
    ensures a.id == b.id
  {
    var na, nb := NatToStr(a.id), NatToStr(b.id);
    assert IntToStr(a.id) == na;
    assert IntToStr(b.id) == nb;
    assert Gradients(a) == "dv" + na;
    assert ("dv" + na)[2..] == na;
    assert Gradients(b) == "dv" + nb;
    assert ("dv" + nb)[2..] == nb;
    NatToStrInjective(a.id, b.id);
  }

  /**
   * The inner loop of both passes from slot `i` on: replace `$i` by the
   * name of dependency `i`, stopping at the first unused slot.
   */
  function SubstDeps(s: string, deps: Slots, i: nat): (r: string)
    requires i <= 4
    decreases 4 - i
  {
    if i == 4 || deps[i] == -1 then s
    else
      VarNamePlain(deps[i]);
      SubstDeps(ReplaceAll(s, Placeholder(i), VarName(deps[i])), deps, i + 1)
  }

  /** A template of entry `v` after substitution: `$v` first, then the used slots in order. */
  function Substituted(template: string, v: Var): (r: string)
  {
    VarNamePlain(v.id);
    SubstDeps(ReplaceAll(template, "$v", VarName(v.id)), v.deps, 0)
  }

  /** Substitution never introduces a placeholder sigil. */
  lemma {:induction false} SubstDepsSigils(s: string, deps: Slots, i: nat)
    requires i <= 4
    ensures DollarCount(SubstDeps(s, deps, i)) <= DollarCount(s)
    decreases 4 - i
  {
    if i < 4 && deps[i] != -1 {
      VarNamePlain(deps[i]);
      ReplaceAllSpec(s, Placeholder(i), VarName(deps[i]));
      SubstDepsSigils(ReplaceAll(s, Placeholder(i), VarName(deps[i])), deps, i + 1);
    }
  }

  // ---------------------------------------------------------------------
  // The substitution of any template, as all holes filled at once.
  // ---------------------------------------------------------------------

  /** The names the slot loop gives from slot `i` on: `$j` becomes `v<deps[j]>` up to the first unused slot. */
  function SlotNames(deps: Slots, i: nat): (r: map<char, string>)
    requires i <= 4
    decreases 4 - i
  {
    if i == 4 || deps[i] == -1 then map[] else SlotNames(deps, i + 1)[Digit(i) := VarName(deps[i])]
  }

  /**
   * The name each hole of entry `v`'s templates stands for: `$v` its own
   * variable, `$j` the variable of dependency `j` while the slots are used.
   */
  function HoleNames(v: Var): (r: map<char, string>)
  {
    SlotNames(v.deps, 0)['v' := VarName(v.id)]
  }

  /**
   * On packed slots, `$j` is named exactly when slot `j` is used, and then
   * by that dependency's variable; `$v` names the entry's own variable.
   */
  lemma {:induction false} SlotNamesSpec(deps: Slots, i: nat)
    requires i <= 4
    requires forall j :: 1 <= j < 4 && deps[j] != -1 ==> deps[j - 1] != -1
    ensures forall j :: i <= j < 4 ==> (Digit(j) in SlotNames(deps, i) <==> deps[j] != -1)
    ensures forall j :: i <= j < 4 && deps[j] != -1 ==> SlotNames(deps, i)[Digit(j)] == VarName(deps[j])
    ensures forall c :: c in SlotNames(deps, i) ==> '0' <= c <= '3'
    decreases 4 - i
  {
    if i < 4 {
      if deps[i] == -1 {
        assert forall j :: i <= j < 4 ==> deps[j] == -1 by {
          assert i + 1 < 4 ==> deps[i + 1] == -1;
          assert i + 2 < 4 ==> deps[i + 2] == -1;
          assert i + 3 < 4 ==> deps[i + 3] == -1;
        }
      } else {
        SlotNamesSpec(deps, i + 1);
      }
    }
  }

  lemma HoleNamesSpec(v: Var)
    requires SlotsPacked(v.deps, v.id)
    ensures 'v' in HoleNames(v) && HoleNames(v)['v'] == VarName(v.id)
    ensures forall j :: 0 <= j < 4 ==> (Digit(j) in HoleNames(v) <==> v.deps[j] != -1)
    ensures forall j :: 0 <= j < 4 && v.deps[j] != -1 ==> HoleNames(v)[Digit(j)] == VarName(v.deps[j])
    ensures forall c :: c in HoleNames(v) ==> c == 'v' || '0' <= c <= '3'
  {
    SlotNamesSpec(v.deps, 0);
  }

  /** The slot names are sigil-free, so they are valid replacement texts. */
  lemma {:induction false} SlotNamesPlain(deps: Slots, i: nat)
    requires i <= 4
    ensures forall c :: c in SlotNames(deps, i) ==> '$' !in SlotNames(deps, i)[c]
    decreases 4 - i
  {
    if i < 4 && deps[i] != -1 {
      SlotNamesPlain(deps, i + 1);
      VarNamePlain(deps[i]);
    }
  }

  lemma SlotNamesStep(deps: Slots, i: nat)
    requires i < 4 && deps[i] != -1
    ensures SlotNames(deps, i + 1) + map[Digit(i) := VarName(deps[i])] == SlotNames(deps, i)
  {
  }

  /** One turn of the slot loop fills every occurrence of the hole of slot `i`. */
  lemma SlotStep(ps: seq<Piece>, deps: Slots, i: nat)
    requires i < 4 && deps[i] != -1 && Plain(ps)
    ensures SubstDeps(Render(ps), deps, i) == SubstDeps(Render(Bind(ps, map[Digit(i) := VarName(deps[i])])), deps, i + 1)
    ensures Plain(Bind(ps, map[Digit(i) := VarName(deps[i])]))
  {
    VarNamePlain(deps[i]);
    PlaceholderHole(i);
    ReplaceHole(ps, Digit(i), VarName(deps[i]));
  }

  /** The placeholder of slot `i` is the hole named by the slot's digit. */
  lemma PlaceholderHole(i: nat)
    requires i < 4
    ensures Placeholder(i) == ['$', Digit(i)]
  {
    OneDigit(i);
  }

  /** The slot loop from slot `i` on fills the holes of the used slots, all at once. */
  lemma {:induction false} SubstDepsRender(ps: seq<Piece>, deps: Slots, i: nat)
    requires i <= 4 && Plain(ps)
    ensures SubstDeps(Render(ps), deps, i) == Render(Bind(ps, SlotNames(deps, i)))
    decreases 4 - i
  {
    if i == 4 || deps[i] == -1 {
      BindNothing(ps);
      assert SlotNames(deps, i) == map[];
    } else {
      var name := VarName(deps[i]);
      var ps' := Bind(ps, map[Digit(i) := name]);
      var later := SlotNames(deps, i + 1);
      SlotStep(ps, deps, i);
      SubstDepsRender(ps', deps, i + 1);
      BindTwice(ps, map[Digit(i) := name], later);
      SlotNamesStep(deps, i);
      calc {
        SubstDeps(Render(ps), deps, i);
        SubstDeps(Render(ps'), deps, i + 1);
        Render(Bind(ps', later));
        Render(Bind(ps, later + map[Digit(i) := name]));
        Render(Bind(ps, SlotNames(deps, i)));
      }
    }
  }

  /**
   * Substitution of any template whose every sigil starts a hole: the
   * `replace` of `$v` followed by the slot loop fills every hole, however
   * often it occurs, with the name `HoleNames` gives it, and leaves the
   * holes of unused slots and all literal text as they were.
   */
  lemma SubstitutedRender(ps: seq<Piece>, v: Var)
    requires Plain(ps)
    ensures Substituted(Render(ps), v) == Render(Bind(ps, HoleNames(v)))
  {
    var n := VarName(v.id);
    VarNamePlain(v.id);
    ReplaceHole(ps, 'v', n);
    var ps' := Bind(ps, map['v' := n]);
    SubstDepsRender(ps', v.deps, 0);
    BindTwice(ps, map['v' := n], SlotNames(v.deps, 0));
    assert SlotNames(v.deps, 0) + map['v' := n] == HoleNames(v);
  }

  /** Text without a sigil is emitted verbatim: substitution leaves it unchanged. */
  lemma {:induction false} SubstitutedPlain(template: string, v: Var)
    requires '$' !in template
    ensures Substituted(template, v) == template
  {
    VarNamePlain(v.id);
    PlainTextUnchanged(template, "$v", VarName(v.id));
    var i := 0;
    while i < 4 && v.deps[i] != -1
      invariant 0 <= i <= 4
      invariant SubstDeps(template, v.deps, i) == Substituted(template, v)
    {
      VarNamePlain(v.deps[i]);
      PlainTextUnchanged(template, Placeholder(i), VarName(v.deps[i]));
      i := i + 1;
    }
  }

  /**
   * The substitution both passes perform on an entry's template: the
   * `replace` of `$v` followed by the loop over the dependency slots that
   * breaks at the first -1.
   */
  method Substitute(template: string, v: Var) returns (r: string)
    ensures r == Substituted(template, v)
    ensures DollarCount(r) <= DollarCount(template)
  {
    VarNamePlain(v.id);
    ReplaceAllSpec(template, "$v", VarName(v.id));
    r := Replace(template, "$v", VarName(v.id));
    var i := 0;
    while i < 4 && v.deps[i] != -1
      invariant 0 <= i <= 4
      invariant SubstDeps(r, v.deps, i) == Substituted(template, v)
      invariant DollarCount(r) <= DollarCount(template)
    {
      VarNamePlain(v.deps[i]);
      ReplaceAllSpec(r, Placeholder(i), VarName(v.deps[i]));
      r := Replace(r, Placeholder(i), VarName(v.deps[i]));
      i := i + 1;
    }
    SubstDepsSigils(r, v.deps, i);
  }

  // ---------------------------------------------------------------------
  // The buffers as concatenations of per-entry text.
  // ---------------------------------------------------------------------

  /** The text of `line` for each entry, in tape order. */
  function InOrder(vars: seq<Var>, line: Var -> string): (r: string)
  {
    if vars == [] then "" else InOrder(vars[..|vars| - 1], line) + line(vars[|vars| - 1])
  }

  /** The text of `line` for each entry, from the last entry down to the first. */
  function InReverse(vars: seq<Var>, line: Var -> string): (r: string)
  {
    if vars == [] then "" else line(vars[|vars| - 1]) + InReverse(vars[..|vars| - 1], line)
  }

  /** Emitting in tape order over a concatenation emits the first part first. */
  lemma {:induction false} InOrderAppend(a: seq<Var>, b: seq<Var>, line: Var -> string)
    ensures InOrder(a + b, line) == InOrder(a, line) + InOrder(b, line)
    decreases |b|
  {
    if b == [] {
      assert a + b == a;
    } else {
      var b', x := b[..|b| - 1], b[|b| - 1];
      assert (a + b)[..|a + b| - 1] == a + b';
      assert (a + b)[|a + b| - 1] == x;
      InOrderAppend(a, b', line);
    }
  }

  /** Emitting in reverse over a concatenation emits the second part first. */
  lemma {:induction false} InReverseAppend(a: seq<Var>, b: seq<Var>, line: Var -> string)
    ensures InReverse(a + b, line) == InReverse(b, line) + InReverse(a, line)
    decreases |b|
  {
    if b == [] {
      assert a + b == a;
    } else {
      var b', x := b[..|b| - 1], b[|b| - 1];
      assert (a + b)[..|a + b| - 1] == a + b';
      assert (a + b)[|a + b| - 1] == x;
      InReverseAppend(a, b', line);
    }
  }

  // ---------------------------------------------------------------------
  // Declarations and forward statements (`stop_recording`).
  // ---------------------------------------------------------------------

  /** No entry has the kind the catalog cannot name. */
  ghost predicate NoInt8(vars: seq<Var>)
  {
    forall i :: 0 <= i < |vars| ==> vars[i].ty != Int8
  }

  /** The number of lines in `s`. */
  function NewlineCount(s: string): (r: nat)
  {
    multiset(s)['\n']
  }

  /**
   * The two zero-initialised declarations of an entry: its value, then its
   * adjoint. An `Int8` entry aborts before anything is written for it, so
   * it has no text here.
   */
  function DeclPair(v: Var): (r: string)
  {
    match TypeToStr(v.ty)
    case None => ""
    case Some(t) => t + " v" + IntToStr(v.id) + " = 0;\n" + t + " dv" + IntToStr(v.id) + " = 0;\n"
  }

  /** The declaration block: one pair per entry, in tape order. */
  function DeclText(vars: seq<Var>): (r: string)
  {
    InOrder(vars, DeclPair)
  }

  /** The forward statement of an entry, or nothing when its substituted template is empty. */
  function ForwardLine(v: Var): (r: string)
  {
    var f := Substituted(v.forward, v);
    if f == "" then "" else f + "\n"
  }

  /** The forward block: the entries' statements in tape order. */
  function ForwardText(vars: seq<Var>): (r: string)
  {
    InOrder(vars, ForwardLine)
  }

  /** Declaration completeness: the block has exactly two lines per entry. */
  lemma {:induction false} DeclLineCount(vars: seq<Var>)
    requires NoInt8(vars)
    ensures NewlineCount(DeclText(vars)) == 2 * |vars|
  {
    if vars != [] {
      var v := vars[|vars| - 1];
      DeclLineCount(vars[..|vars| - 1]);
      var pre := vars[..|vars| - 1];
      assert DeclText(vars) == DeclText(pre) + DeclPair(v);
      DeclPairLines(v);
      NewlineCountAppend(DeclText(pre), DeclPair(v));
    }
  }

  /** Each declaration pair is exactly two lines. */
  lemma DeclPairLines(v: Var)
    requires v.ty != Int8
    ensures NewlineCount(DeclPair(v)) == 2
  {
    var t := TypeToStr(v.ty).value;
    var n := IntToStr(v.id);
    var b1 := t + " v" + n + " = 0;";
    var b2 := t + " dv" + n + " = 0;";
    assert DeclPair(v) == (b1 + "\n") + (b2 + "\n");
    IntToStrPlain(v.id);
    DeclBodyOneLine(t, n);
    OneLine(b1);
    OneLine(b2);
    NewlineCountAppend(b1 + "\n", b2 + "\n");
  }

  /** The text of one declaration has no line break of its own. */
  lemma DeclBodyOneLine(t: string, n: string)
    requires '\n' !in t && '\n' !in n
    ensures '\n' !in t + " v" + n + " = 0;"
    ensures '\n' !in t + " dv" + n + " = 0;"
  {
  }

  lemma NewlineCountAppend(a: string, b: string)
    ensures NewlineCount(a + b) == NewlineCount(a) + NewlineCount(b)
  {
    assert multiset(a + b) == multiset(a) + multiset(b);
  }

  /** A text without a line break, terminated by one, is one line. */
  lemma OneLine(b: string)
    requires '\n' !in b
    ensures NewlineCount(b + "\n") == 1
  {
    NewlineCountAppend(b, "\n");
    assert '\n' !in multiset(b);
  }

  /**
   * A handle's adjoint name is declared: the declaration block holds the
   * line `<type> dv<id> = 0;` for it, so the name `gradients` returns
   * never dangles.
   */
  lemma GradientDeclared(vars: seq<Var>, h: Handle)
    requires TapeValid(vars) && NoInt8(vars)
    requires IsHandle(vars, h)
    ensures Contains(DeclText(vars), TypeToStr(h.ty).value + " " + Gradients(h) + " = 0;\n")
  {
    var k := h.id;
    var pre, x, post := vars[..k], vars[k], vars[k + 1..];
    assert vars == (pre + [x]) + post;
    InOrderAppend(pre + [x], post, DeclPair);
    InOrderAppend(pre, [x], DeclPair);
    assert [x][..0] == [];
    assert InOrder([x], DeclPair) == DeclPair(x);
    var t := TypeToStr(h.ty).value;
    var first := t + " v" + IntToStr(k) + " = 0;\n";
    var line := t + " " + Gradients(h) + " = 0;\n";
    DeclPairSplit(x, t);
    assert DeclText(vars) == (DeclText(pre) + (first + line)) + DeclText(post);
    OccursInside(DeclText(pre), first, line, DeclText(post));
  }

  /** The third of four joined texts occurs where the first two end. */
  lemma OccursInside(a: string, b: string, c: string, d: string)
    ensures OccursAt((a + (b + c)) + d, c, |a| + |b|)
  {
    var w := (a + (b + c)) + d;
    assert w[|a| + |b|..|a| + |b| + |c|] == c;
  }

  /** A declaration pair is the value's line followed by the adjoint's line. */
  lemma DeclPairSplit(v: Var, t: string)
    requires TypeToStr(v.ty) == Some(t)
    ensures DeclPair(v) == (t + " v" + IntToStr(v.id) + " = 0;\n") + (t + " " + Gradients(Handle(v.id, v.ty)) + " = 0;\n")
  {
    var n := IntToStr(v.id);
    assert Gradients(Handle(v.id, v.ty)) == "dv" + n;
  }

  /**
   * Tape order of the forward pass: entry `k`'s statement comes after
   * those of all earlier entries and before those of all later ones.
   */
  lemma ForwardOrder(vars: seq<Var>, k: nat)
    requires k < |vars|
    ensures ForwardText(vars) == ForwardText(vars[..k]) + ForwardLine(vars[k]) + ForwardText(vars[k + 1..])
  {
    assert vars == vars[..k + 1] + vars[k + 1..];
    InOrderAppend(vars[..k + 1], vars[k + 1..], ForwardLine);
    assert vars[..k + 1][..k] == vars[..k];
  }

  // ---------------------------------------------------------------------
  // Backward statements (`backward`).
  // ---------------------------------------------------------------------

  /**
   * The backward statement of an entry: emitted only when its substituted
   * template is non-empty and its kind is floating point.
   */
  function BackwardLine(v: Var): (r: string)
  {
    var b := Substituted(v.backward, v);
    if b != "" && IsFloat(v.ty) then b + "\n" else ""
  }

  /** The reverse sweep: the entries' statements from the last entry down to the first. */
  function BackwardText(vars: seq<Var>): (r: string)
  {
    InReverse(vars, BackwardLine)
  }

  /**
   * Reverse safety: entry `k`'s backward statement comes after the
   * statements of every later entry (so of every entry that can depend on
   * it) and before those of every earlier one.
   */
  lemma BackwardOrder(vars: seq<Var>, k: nat)
    requires k < |vars|
    ensures BackwardText(vars) == BackwardText(vars[k + 1..]) + BackwardLine(vars[k]) + BackwardText(vars[..k])
  {
    var pre := vars[..k + 1];
    assert vars == pre + vars[k + 1..];
    InReverseAppend(pre, vars[k + 1..], BackwardLine);
    assert pre[..k] == vars[..k] && pre[k] == vars[k];
    assert InReverse(pre, BackwardLine) == BackwardLine(vars[k]) + InReverse(vars[..k], BackwardLine);
  }

  /**
   * Non-differentiable kinds never emit: a tape without a floating-point
   * entry has an empty reverse sweep, whatever its backward templates say.
   */
  lemma {:induction false} BackwardSkipsNonFloat(vars: seq<Var>)
    requires forall i :: 0 <= i < |vars| ==> !IsFloat(vars[i].ty)
    ensures BackwardText(vars) == ""
  {
    if vars != [] {
      BackwardSkipsNonFloat(vars[..|vars| - 1]);
    }
  }

  /**
   * An entry of a non-floating-point kind contributes nothing to the
   * sweep: the text around it is the sweep of the later entries followed
   * by that of the earlier ones.
   */
  lemma NonFloatSilent(vars: seq<Var>, k: nat)
    requires k < |vars| && !IsFloat(vars[k].ty)
    ensures BackwardText(vars) == BackwardText(vars[k + 1..]) + BackwardText(vars[..k])
  {
    BackwardOrder(vars, k);
  }

  /** A comparison entry (kind `Bool`) contributes nothing to the sweep. */
  lemma ComparisonSilent(vars: seq<Var>, k: nat)
    requires k < |vars| && vars[k].ty == Bool
    ensures BackwardText(vars) == BackwardText(vars[k + 1..]) + BackwardText(vars[..k])
  {
    NonFloatSilent(vars, k);
  }

  // ---------------------------------------------------------------------
  // One step of each pass, as the recorder's loops take them.
  // ---------------------------------------------------------------------

  /** Declaring one more entry appends its pair: the value's line, then the adjoint's. */
  lemma DeclTextStep(vars: seq<Var>, i: nat, t: string)
    requires i < |vars| && TypeToStr(vars[i].ty) == Some(t)
    ensures DeclText(vars[..i + 1])
         == DeclText(vars[..i]) + ((t + " v" + IntToStr(vars[i].id) + " = 0;\n") + (t + " dv" + IntToStr(vars[i].id) + " = 0;\n"))
  {
    assert vars[..i + 1][..i] == vars[..i];
    assert vars[..i + 1][i] == vars[i];
  }

  /** Emitting in tape order over one more entry appends that entry's text. */
  lemma InOrderStep(vars: seq<Var>, i: nat, line: Var -> string)
    requires i < |vars|
    ensures InOrder(vars[..i + 1], line) == InOrder(vars[..i], line) + line(vars[i])
  {
    assert vars[..i + 1][..i] == vars[..i];
  }

  /** Sweeping down over one more entry (the next lower id) appends that entry's text. */
  lemma InReverseStep(vars: seq<Var>, i: nat, line: Var -> string)
    requires i < |vars|
    ensures InReverse(vars[i..], line) == InReverse(vars[i + 1..], line) + line(vars[i])
  {
    var v := vars[i];
    assert vars[i..] == [v] + vars[i + 1..];
    InReverseAppend([v], vars[i + 1..], line);
    assert [v][..0] == [];
    assert InReverse([v], line) == line(v);
  }

  /** The forward statement of an entry whose forward template substitutes to `f`. */
  lemma ForwardLineIs(v: Var, f: string)
    requires f == Substituted(v.forward, v)
    ensures ForwardLine(v) == if f == "" then "" else f + "\n"
  {
  }

  /** The backward statement of an entry whose backward template substitutes to `b`. */
  lemma BackwardLineIs(v: Var, b: string)
    requires b == Substituted(v.backward, v)
    ensures BackwardLine(v) == if b != "" && IsFloat(v.ty) then b + "\n" else ""
  {
  }

  /** Replaying one more entry appends its forward statement, if any. */
  lemma ForwardTextStep(vars: seq<Var>, i: nat, f: string)
    requires i < |vars| && f == Substituted(vars[i].forward, vars[i])
    ensures ForwardText(vars[..i + 1]) == ForwardText(vars[..i]) + (if f == "" then "" else f + "\n")
  {
    InOrderStep(vars, i, ForwardLine);
    ForwardLineIs(vars[i], f);
  }

  /** Sweeping one more entry (the next lower id) appends its backward statement, if any. */
  lemma BackwardTextStep(vars: seq<Var>, i: nat, b: string)
    requires i < |vars| && b == Substituted(vars[i].backward, vars[i])
    ensures BackwardText(vars[i..]) == BackwardText(vars[i + 1..]) + (if b != "" && IsFloat(vars[i].ty) then b + "\n" else "")
  {
    InReverseStep(vars, i, BackwardLine);
    BackwardLineIs(vars[i], b);
  }
}
