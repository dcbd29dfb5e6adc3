/**
 * The string primitives the emitters are built on: decimal rendering of
 * ids (`std::to_string`), first-occurrence search (`std::string::find`),
 * and the placeholder substitution `replace_one` / `replace`.
 *
 * Placeholders all start with the sigil '$' and replacement identifiers
 * never contain it, so every `replace_one` step removes at least one '$';
 * that count is what makes `replace` terminate.
 */
module Text {
  import opened Wrappers

  /** The decimal digit character for `d`. */
  function Digit(d: nat): (c: char)
    requires d < 10
    ensures '0' <= c <= '9'
    ensures c as int - '0' as int == d
  {
    ('0' as int + d) as char
  }

  /** Decimal rendering of a non-negative integer, without leading zeros. */
  function NatToStr(n: nat): (r: string)
    decreases n
  {
    if n < 10 then [Digit(n)] else NatToStr(n / 10) + [Digit(n % 10)]
  }

  /**
   * The rendering is a non-empty run of decimal digits, a single one
   * exactly for the numbers below ten.
   */
  lemma {:induction false} NatToStrDigits(n: nat)
    ensures |NatToStr(n)| >= 1
    ensures forall i :: 0 <= i < |NatToStr(n)| ==> '0' <= NatToStr(n)[i] <= '9'
    ensures n < 10 <==> |NatToStr(n)| == 1
    decreases n
  {
    if n >= 10 {
      NatToStrDigits(n / 10);
      var r, d := NatToStr(n / 10), Digit(n % 10);
      assert NatToStr(n) == r + [d];
      assert forall i :: 0 <= i < |r| ==> (r + [d])[i] == r[i];
    }
  }

  /** `std::to_string` on a signed integer. */
  function IntToStr(x: int): (r: string)
  {
    if x < 0 then "-" + NatToStr(-x) else NatToStr(x)
  }

  /** A number below ten renders as its single digit. */
  lemma OneDigit(n: nat)
    requires n < 10
    ensures IntToStr(n) == [Digit(n)]
  {
  }

  /**
   * A rendered number is a plain identifier fragment: it holds neither the
   * placeholder sigil nor a line break.
   */
  lemma IntToStrPlain(x: int)
    ensures '$' !in IntToStr(x) && '\n' !in IntToStr(x)
  {
    var n: nat := if x < 0 then -x else x;
    NatToStrDigits(n);
  }

  /** Distinct numbers render as distinct strings. */
  lemma {:induction false} NatToStrInjective(a: nat, b: nat)
    requires NatToStr(a) == NatToStr(b)
    ensures a == b
    decreases a
  {
    NatToStrDigits(a);
    NatToStrDigits(b);
    var ra, rb := NatToStr(a), NatToStr(b);
    if a < 10 && b < 10 {
      assert ra[0] == Digit(a) && rb[0] == Digit(b);
    } else if a >= 10 && b >= 10 {
      assert ra[|ra| - 1] == Digit(a % 10) && rb[|rb| - 1] == Digit(b % 10);
      assert ra[..|ra| - 1] == NatToStr(a / 10);
      assert rb[..|rb| - 1] == NatToStr(b / 10);
      NatToStrInjective(a / 10, b / 10);
    }
  }

  /** `pat` occurs in `s` at position `i`. */
  predicate OccursAt(s: string, pat: string, i: nat)
  {
    i + |pat| <= |s| && s[i..i + |pat|] == pat
  }

  /** `pat` occurs somewhere in `s`. */
  ghost predicate Contains(s: string, pat: string)
  {
    exists i: nat :: OccursAt(s, pat, i)
  }

  /** The number of placeholder sigils in `s`. */
  function DollarCount(s: string): (r: nat)
  {
    multiset(s)['$']
  }

  /** `std::string::find`: the position of the first occurrence of `pat`, or `None` (`npos`). */
  function Find(s: string, pat: string): (r: Option<nat>)
    ensures r.Some? ==> r.value + |pat| <= |s|
    decreases |s|
  {
    if |s| < |pat| then None
    else if s[..|pat|] == pat then Some(0)
    else
      match Find(s[1..], pat)
      case None => None
      case Some(p) => Some(p + 1)
  }

  /**
   * `find` reports the first occurrence: `npos` exactly when there is
   * none, and otherwise a position where the pattern occurs with no
   * occurrence before it.
   */
  lemma {:induction false} FindSpec(s: string, pat: string)
    ensures Find(s, pat).None? <==> !Contains(s, pat)
    ensures Find(s, pat).Some? ==> OccursAt(s, pat, Find(s, pat).value)
    ensures Find(s, pat).Some? ==> forall j: nat :: j < Find(s, pat).value ==> !OccursAt(s, pat, j)
    decreases |s|
  {
    if |s| < |pat| {
      assert forall i: nat :: !OccursAt(s, pat, i);
    } else if s[..|pat|] == pat {
      assert OccursAt(s, pat, 0);
    } else {
      FindSpec(s[1..], pat);
      ShiftOccurs(s, pat);
      assert !OccursAt(s, pat, 0);
      match Find(s[1..], pat)
      case None =>
        assert forall i: nat :: !OccursAt(s, pat, i) by {
          forall i: nat ensures !OccursAt(s, pat, i) {
            if i > 0 { assert !OccursAt(s[1..], pat, i - 1); }
          }
        }
      case Some(p) =>
        assert OccursAt(s, pat, p + 1);
        assert forall j: nat :: j < p + 1 ==> !OccursAt(s, pat, j) by {
          forall j: nat | j < p + 1 ensures !OccursAt(s, pat, j) {
            if j > 0 { assert !OccursAt(s[1..], pat, j - 1); }
          }
        }
    }
  }

  /** Occurrences in `s[1..]` are the occurrences in `s` past position 0. */
  lemma ShiftOccurs(s: string, pat: string)
    requires |s| >= 1
    ensures forall i: nat :: OccursAt(s[1..], pat, i) <==> OccursAt(s, pat, i + 1)
  {
    forall i: nat
      ensures OccursAt(s[1..], pat, i) <==> OccursAt(s, pat, i + 1)
    {
      if i + |pat| <= |s| - 1 {
        assert s[1..][i..i + |pat|] == s[i + 1..i + 1 + |pat|];
      }
    }
  }

  /**
   * `replace_one`: replace the first occurrence of `from` by `to`; `None`
   * when there is none (the source returns false and leaves the text alone).
   * A step that replaces a sigil-led pattern by sigil-free text removes a sigil.
   */
  function ReplaceOne(s: string, from: string, to: string): (r: Option<string>)
    ensures r.Some? && '$' in from && '$' !in to ==> DollarCount(r.value) < DollarCount(s)
  {
    match Find(s, from)
    case None => None
    case Some(p) =>
      FindSpec(s, from);
      assert s == s[..p] + from + s[p + |from|..];
      assert '$' in from ==> multiset(from)['$'] >= 1;
      Some(s[..p] + to + s[p + |from|..])
  }

  /**
   * `replace_one` fails exactly when the pattern does not occur, and
   * otherwise splices `to` in at the first occurrence.
   */
  lemma ReplaceOneSpec(s: string, from: string, to: string)
    ensures ReplaceOne(s, from, to).None? <==> !Contains(s, from)
    ensures ReplaceOne(s, from, to).Some? ==> |ReplaceOne(s, from, to).value| == |s| - |from| + |to|
    ensures ReplaceOne(s, from, to).Some? ==>
      exists p: nat :: && OccursAt(s, from, p)
                       && (forall j: nat :: j < p ==> !OccursAt(s, from, j))
                       && ReplaceOne(s, from, to).value == s[..p] + to + s[p + |from|..]
  {
    FindSpec(s, from);
  }

  /**
   * What `replace` leaves behind: `replace_one` applied until it finds
   * nothing. Defined only where the sigil count guarantees termination.
   */
  function ReplaceAll(s: string, from: string, to: string): (r: string)
    requires '$' in from && '$' !in to
    decreases DollarCount(s)
  {
    match ReplaceOne(s, from, to)
    case None => s
    case Some(t) => ReplaceAll(t, from, to)
  }

  /**
   * `replace` leaves no occurrence of the pattern, is the identity on text
   * without one, and never adds a sigil.
   */
  lemma {:induction false} ReplaceAllSpec(s: string, from: string, to: string)
    requires '$' in from && '$' !in to
    ensures !Contains(ReplaceAll(s, from, to), from)
    ensures !Contains(s, from) ==> ReplaceAll(s, from, to) == s
    ensures DollarCount(ReplaceAll(s, from, to)) <= DollarCount(s)
    decreases DollarCount(s)
  {
    ReplaceOneSpec(s, from, to);
    match ReplaceOne(s, from, to)
    case None =>
    case Some(t) => ReplaceAllSpec(t, from, to);
  }

  /**
   * `replace`: the `while (replace_one(str, from, to));` loop, on a local
   * copy of the string.
   */
  method Replace(s: string, from: string, to: string) returns (r: string)
    requires '$' in from && '$' !in to
    ensures r == ReplaceAll(s, from, to)
    ensures !Contains(r, from)
  {
    r := s;
    var step := ReplaceOne(r, from, to);
    while step.Some?
      invariant step == ReplaceOne(r, from, to)
      invariant ReplaceAll(r, from, to) == ReplaceAll(s, from, to)
      decreases DollarCount(r)
    {
      r := step.value;
      step := ReplaceOne(r, from, to);
    }
    ReplaceAllSpec(r, from, to);
  }

  /** Text without a sigil contains no placeholder, so substituting into it changes nothing. */
  lemma PlainTextUnchanged(s: string, from: string, to: string)
    requires '$' in from && '$' !in to
    requires '$' !in s
    ensures ReplaceAll(s, from, to) == s
  {
    ReplaceAllSpec(s, from, to);
  }

  // ---------------------------------------------------------------------
  // Where the first occurrence is known, `replace_one` is known exactly.
  // ---------------------------------------------------------------------

  /** With the first occurrence at `p`, `replace_one` splices `to` in at `p`. */
  lemma ReplaceOneAt(s: string, pat: string, to: string, p: nat)
    requires OccursAt(s, pat, p)
    requires forall j: nat :: j < p ==> !OccursAt(s, pat, j)
    ensures ReplaceOne(s, pat, to) == Some(s[..p] + to + s[p + |pat|..])
  {
    FindSpec(s, pat);
    var q := Find(s, pat).value;
    assert q <= p;
    assert q >= p;
  }

  /** Text without a sigil contains no sigil-led pattern. */
  lemma PlainNotContains(s: string, pat: string)
    requires '$' !in s && |pat| >= 1 && pat[0] == '$'
    ensures !Contains(s, pat)
  {
    forall i: nat ensures !OccursAt(s, pat, i) {
      if i + |pat| <= |s| {
        assert s[i..i + |pat|][0] == s[i];
      }
    }
  }

  /**
   * The first occurrence of a two-character pattern placed after a text
   * that neither contains it nor ends with its first character.
   */
  lemma ReplaceOneAfter(pre: string, pat: string, to: string, post: string)
    requires |pat| == 2 && !Contains(pre, pat)
    requires |pre| == 0 || pre[|pre| - 1] != pat[0]
    ensures ReplaceOne(pre + pat + post, pat, to) == Some(pre + to + post)
  {
    var s := pre + pat + post;
    assert s[|pre|..|pre| + 2] == pat;
    forall j: nat | j < |pre| ensures !OccursAt(s, pat, j) {
      if j + 2 <= |pre| {
        assert s[j..j + 2] == pre[j..j + 2];
        assert !OccursAt(pre, pat, j);
      } else {
        assert s[j..j + 2][0] == pre[|pre| - 1];
      }
    }
    ReplaceOneAt(s, pat, to, |pre|);
    assert s[..|pre|] == pre;
    assert s[|pre| + 2..] == post;
  }

  /** `x` does not end with the character `c`. */
  predicate EndsClear(x: string, c: char) {
    |x| == 0 || x[|x| - 1] != c
  }

  /** Joining two texts without a two-character pattern creates none, unless the seam does. */
  lemma NotContainsJoin(x: string, y: string, pat: string)
    requires |pat| == 2 && !Contains(x, pat) && !Contains(y, pat) && EndsClear(x, pat[0])
    ensures !Contains(x + y, pat)
  {
    var t := x + y;
    forall i: nat ensures !OccursAt(t, pat, i) {
      if i + 2 <= |t| {
        if i + 2 <= |x| {
          assert t[i..i + 2] == x[i..i + 2];
          assert !OccursAt(x, pat, i);
        } else if i >= |x| {
          var j: nat := i - |x|;
          assert t[i..i + 2] == y[j..j + 2];
          assert !OccursAt(y, pat, j);
        } else {
          assert t[i..i + 2][0] == x[|x| - 1];
        }
      }
    }
  }

  // ---------------------------------------------------------------------
  // Templates as pieces: sigil-free literal text and two-character holes
  // `$c`. Replacing one hole by a name everywhere fills exactly that hole,
  // however often it occurs.
  // ---------------------------------------------------------------------

  /** A run of literal text, or the placeholder `$<name>`. */
  datatype Piece = Lit(text: string) | Hole(name: char)

  function PieceText(p: Piece): (r: string)
    ensures p.Hole? ==> |r| == 2 && r[0] == '$'
  {
    match p
    case Lit(s) => s
    case Hole(c) => ['$', c]
  }

  /** The template text the pieces spell, in order. */
  function Render(ps: seq<Piece>): (r: string)
  {
    if ps == [] then "" else PieceText(ps[0]) + Render(ps[1..])
  }

  /** Literal text without the sigil, or a hole whose name is not the sigil. */
  predicate PlainPiece(p: Piece)
  {
    match p
    case Lit(s) => '$' !in s
    case Hole(c) => c != '$'
  }

  /** Every sigil of the rendered text starts a hole. */
  predicate Plain(ps: seq<Piece>)
  {
    forall k :: 0 <= k < |ps| ==> PlainPiece(ps[k])
  }

  /** A hole named in `names` becomes the literal name; every other piece stays. */
  function BindPiece(p: Piece, names: map<char, string>): (r: Piece)
    ensures r.Hole? ==> r == p && r.name !in names
  {
    match p
    case Hole(c) => if c in names then Lit(names[c]) else p
    case Lit(_) => p
  }

  /** All holes named in `names` filled at once, each by its own name. */
  function Bind(ps: seq<Piece>, names: map<char, string>): (r: seq<Piece>)
    ensures |r| == |ps|
  {
    if ps == [] then [] else [BindPiece(ps[0], names)] + Bind(ps[1..], names)
  }

  lemma RenderBindCons(ps: seq<Piece>, names: map<char, string>)
    requires ps != []
    ensures Render(Bind(ps, names)) == PieceText(BindPiece(ps[0], names)) + Render(Bind(ps[1..], names))
  {
    var b := Bind(ps, names);
    assert b[0] == BindPiece(ps[0], names);
    assert b[1..] == Bind(ps[1..], names);
  }

  lemma PlainTail(ps: seq<Piece>)
    requires ps != [] && Plain(ps)
    ensures Plain(ps[1..]) && PlainPiece(ps[0])
  {
    assert forall k :: 0 <= k < |ps| - 1 ==> ps[1..][k] == ps[k + 1];
  }

  /** Binding with no names changes nothing. */
  lemma {:induction false} BindNothing(ps: seq<Piece>)
    ensures Bind(ps, map[]) == ps
    decreases |ps|
  {
    if ps != [] {
      BindNothing(ps[1..]);
      assert ps == [ps[0]] + ps[1..];
    }
  }

  /** Binding twice binds once with the union; the first binding wins where both name a hole. */
  lemma {:induction false} BindTwice(ps: seq<Piece>, first: map<char, string>, second: map<char, string>)
    ensures Bind(Bind(ps, first), second) == Bind(ps, second + first)
    decreases |ps|
  {
    if ps != [] {
      BindTwice(ps[1..], first, second);
      var b := Bind(ps, first);
      assert b[0] == BindPiece(ps[0], first) && b[1..] == Bind(ps[1..], first);
    }
  }

  /** Filling holes with sigil-free names keeps every sigil at the start of a hole. */
  lemma {:induction false} BindPlain(ps: seq<Piece>, names: map<char, string>)
    requires Plain(ps)
    requires forall c :: c in names ==> '$' !in names[c]
    ensures Plain(Bind(ps, names))
    decreases |ps|
  {
    if ps != [] {
      PlainTail(ps);
      BindPlain(ps[1..], names);
      var b := Bind(ps, names);
      assert b[0] == BindPiece(ps[0], names) && b[1..] == Bind(ps[1..], names);
      assert forall k :: 1 <= k < |b| ==> b[k] == b[1..][k - 1];
    }
  }

  /** A piece other than the hole `c` holds no occurrence of `$c` and does not end with the sigil. */
  lemma OtherPieceClear(p: Piece, c: char)
    requires PlainPiece(p) && p != Hole(c)
    ensures !Contains(PieceText(p), ['$', c]) && EndsClear(PieceText(p), '$')
  {
    var pat := ['$', c];
    match p
    case Lit(s) =>
      PlainNotContains(s, pat);
      if |s| > 0 { assert s[|s| - 1] in s; }
    case Hole(d) =>
      var t := PieceText(p);
      forall i: nat ensures !OccursAt(t, pat, i) {
        if i + 2 <= |t| { assert t[i..i + 2] == t; }
      }
  }

  /** Extending a text free of the pattern and of a trailing sigil by such a piece keeps both. */
  lemma ExtendHead(head: string, piece: string, pat: string)
    requires |pat| == 2 && pat[0] == '$'
    requires !Contains(head, pat) && EndsClear(head, '$')
    requires !Contains(piece, pat) && EndsClear(piece, '$')
    ensures !Contains(head + piece, pat) && EndsClear(head + piece, '$')
  {
    NotContainsJoin(head, piece, pat);
    if |piece| > 0 {
      assert (head + piece)[|head + piece| - 1] == piece[|piece| - 1];
    } else {
      assert head + piece == head;
    }
  }

  /** The first occurrence after a clear head is the one `replace_one` takes. */
  lemma ReplaceAllStep(head: string, pat: string, to: string, rest: string)
    requires |pat| == 2 && pat[0] == '$' && '$' !in to
    requires !Contains(head, pat) && EndsClear(head, '$')
    ensures ReplaceAll(head + pat + rest, pat, to) == ReplaceAll(head + to + rest, pat, to)
  {
    ReplaceOneAfter(head, pat, to, rest);
  }

  lemma Regroup(a: string, b: string, c: string)
    ensures a + b + c == a + (b + c)
  {
  }

  /**
   * `replace` of the hole `$c`, after a text that holds no `$c` and does
   * not end with the sigil, fills every occurrence of that hole and
   * nothing else.
   */
  lemma {:induction false} ReplaceHoleAfter(head: string, ps: seq<Piece>, c: char, to: string)
    requires Plain(ps) && c != '$' && '$' !in to
    requires !Contains(head, ['$', c]) && EndsClear(head, '$')
    ensures ReplaceAll(head + Render(ps), ['$', c], to) == head + Render(Bind(ps, map[c := to]))
    decreases |ps|
  {
    var pat := ['$', c];
    if ps == [] {
      ReplaceAllSpec(head, pat, to);
      assert head + Render(ps) == head;
    } else {
      PlainTail(ps);
      RenderBindCons(ps, map[c := to]);
      var rest := Render(ps[1..]);
      var piece := PieceText(ps[0]);
      var next := if ps[0] == Hole(c) then to else piece;
      assert PieceText(BindPiece(ps[0], map[c := to])) == next;
      assert Render(ps) == piece + rest;
      Regroup(head, piece, rest);
      if ps[0] == Hole(c) {
        assert piece == pat;
        ReplaceAllStep(head, pat, to, rest);
        PlainNotContains(to, pat);
      } else {
        OtherPieceClear(ps[0], c);
      }
      assert ReplaceAll(head + Render(ps), pat, to) == ReplaceAll(head + next + rest, pat, to);
      ExtendHead(head, next, pat);
      ReplaceHoleAfter(head + next, ps[1..], c, to);
      Regroup(head, next, Render(Bind(ps[1..], map[c := to])));
    }
  }

  /**
   * `replace` of a hole fills all of its occurrences, however many, and
   * leaves every other piece of the template as it was.
   */
  lemma ReplaceHole(ps: seq<Piece>, c: char, to: string)
    requires Plain(ps) && c != '$' && '$' !in to
    ensures ReplaceAll(Render(ps), ['$', c], to) == Render(Bind(ps, map[c := to]))
    ensures Plain(Bind(ps, map[c := to]))
  {
    assert !Contains("", ['$', c]);
    ReplaceHoleAfter("", ps, c, to);
    assert "" + Render(ps) == Render(ps);
    assert "" + Render(Bind(ps, map[c := to])) == Render(Bind(ps, map[c := to]));
    BindPlain(ps, map[c := to]);
  }

  /** Rendering distributes over joining piece lists. */
  lemma {:induction false} RenderAppend(a: seq<Piece>, b: seq<Piece>)
    ensures Render(a + b) == Render(a) + Render(b)
    decreases |a|
  {
    if a == [] {
      assert a + b == b;
    } else {
      assert (a + b)[1..] == a[1..] + b;
      RenderAppend(a[1..], b);
    }
  }

  lemma Render3(p: Piece, q: Piece, r: Piece)
    ensures Render([p, q, r]) == PieceText(p) + PieceText(q) + PieceText(r)
  {
    assert [p, q, r][1..] == [q, r];
    assert [q, r][1..] == [r];
    assert Render([r]) == PieceText(r) by {
      assert [r][1..] == [];
    }
  }

  /** Binding distributes over joining piece lists. */
  lemma {:induction false} BindAppend(a: seq<Piece>, b: seq<Piece>, names: map<char, string>)
    ensures Bind(a + b, names) == Bind(a, names) + Bind(b, names)
    decreases |a|
  {
    if a == [] {
      assert a + b == b;
    } else {
      assert (a + b)[1..] == a[1..] + b;
      BindAppend(a[1..], b, names);
    }
  }

  lemma Bind3(p: Piece, q: Piece, r: Piece, names: map<char, string>)
    ensures Bind([p, q, r], names) == [BindPiece(p, names), BindPiece(q, names), BindPiece(r, names)]
  {
    assert [p, q, r][1..] == [q, r];
    assert [q, r][1..] == [r];
    assert Bind([r], names) == [BindPiece(r, names)] by {
      assert [r][1..] == [];
    }
  }
}
