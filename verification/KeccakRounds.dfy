/** The in-place permutation of fips202/keccakf1600.c, with its four unrolled rounds driven by the tables. */
module KeccakRounds {
  import opened KeccakSpec
  import opened Halves
  import opened KeccakTable
  import opened KeccakMatch
  import opened KeccakConstants

  // ----- positions

  /** The words a hold the state h as round r expects it. */
  ghost predicate Placed(a: seq<Word>, h: seq<Word>, r: nat) {
    && |a| == |h| == 50 && r <= 4
    && forall x: nat, y: nat, p: nat :: x < 5 && y < 5 && p < 2 ==>
         Place(r, x, y, p) < 50 && a[Place(r, x, y, p)] == h[Half(x, y, p)]
  }

  lemma PlacedFirst(a: seq<Word>)
    requires |a| == 50
    ensures Placed(a, a, 0)
  {
    hide Place, Half;
    forall x: nat, y: nat, p: nat | x < 5 && y < 5 && p < 2
      ensures Place(0, x, y, p) < 50 && a[Place(0, x, y, p)] == a[Half(x, y, p)]
    {
      FirstPlace(x, y, p);
    }
  }

  lemma PlacedLast(a: seq<Word>, h: seq<Word>)
    requires Placed(a, h, 4)
    ensures a == h
  {
    hide Place;
    forall j | 0 <= j < 50 ensures a[j] == h[j] {
      var x, y, p := j / 2 % 5, j / 10, j % 2;
      SamePlace(x, y, p);
      FirstPlace(x, y, p);
      assert Half(x, y, p) == j;
    }
  }

  // ----- theta

  /** Five words added up. */
  function Total(a: seq<Word>, c: Column): Word
    requires |a| == 50 && c.b < 50 && c.g < 50 && c.k < 50 && c.m < 50 && c.s < 50
  {
    WordXor(WordXor(WordXor(WordXor(a[c.b], a[c.g]), a[c.k]), a[c.m]), a[c.s])
  }

  lemma TotalIsColumn(a: seq<Word>, h: seq<Word>, r: nat, x: nat, p: nat, i: nat)
    requires Placed(a, h, r) && x < 5 && p < 2 && i == 2 * x + p
    ensures var c := Columns(r, i);
            c.b < 50 && c.g < 50 && c.k < 50 && c.m < 50 && c.s < 50 && Total(a, c) == ColumnSum(h, x, p)
  {
    hide Columns, WordXor, Half;
    assert Place(r, x, 0, p) < 50 && Place(r, x, 1, p) < 50 && Place(r, x, 2, p) < 50 && Place(r, x, 3, p) < 50
        && Place(r, x, 4, p) < 50;
    assert Columns(r, i).b == Place(r, x, 0, p) && Columns(r, i).g == Place(r, x, 1, p)
        && Columns(r, i).k == Place(r, x, 2, p)
        && Columns(r, i).m == Place(r, x, 3, p) && Columns(r, i).s == Place(r, x, 4, p);
  }

  /** The theta lines of round r: the ten D words, through the temporaries of the code. */
  method Theta(a: array<Word>, r: nat, ghost h: seq<Word>) returns (d: seq<Word>)
    requires a.Length == |h| == 50 && r < 4 && Placed(a[..], h, r)
    ensures |d| == 10 && forall c :: 0 <= c < 10 ==> d[c] == Effect(h, c / 2, c % 2)
  {
    hide WordXor, Rol32, Columns, Total, ColumnSum, Placed, Effect;
    var s := a[..];
    TotalIsColumn(s, h, r, 0, 0, 0); TotalIsColumn(s, h, r, 0, 1, 1);
    TotalIsColumn(s, h, r, 1, 0, 2); TotalIsColumn(s, h, r, 1, 1, 3);
    TotalIsColumn(s, h, r, 2, 0, 4); TotalIsColumn(s, h, r, 2, 1, 5);
    TotalIsColumn(s, h, r, 3, 0, 6); TotalIsColumn(s, h, r, 3, 1, 7);
    TotalIsColumn(s, h, r, 4, 0, 8); TotalIsColumn(s, h, r, 4, 1, 9);
    var cx := Total(s, Columns(r, 8));
    var du1 := Total(s, Columns(r, 3));
    var da0 := WordXor(cx, Rol32(du1, 1));
    var cz := Total(s, Columns(r, 9));
    var du0 := Total(s, Columns(r, 2));
    var da1 := WordXor(cz, du0);
    var cw := Total(s, Columns(r, 4));
    var do0 := WordXor(cw, Rol32(cz, 1));
    var cy := Total(s, Columns(r, 5));
    var do1 := WordXor(cy, cx);
    cx := Total(s, Columns(r, 0));
    var de0 := WordXor(cx, Rol32(cy, 1));
    cz := Total(s, Columns(r, 1));
    var de1 := WordXor(cz, cw);
    cy := Total(s, Columns(r, 7));
    var di0 := WordXor(du0, Rol32(cy, 1));
    cw := Total(s, Columns(r, 6));
    var di1 := WordXor(du1, cw);
    du0 := WordXor(cw, Rol32(cz, 1));
    du1 := WordXor(cy, cx);
    d := [da0, da1, de0, de1, di0, di1, do0, do1, du0, du1];
    forall c | 0 <= c < 10 ensures d[c] == Effect(h, c / 2, c % 2) {
      if c == 0 { EvenEffect(h, 0, 4, 1); } else if c == 1 { OddEffect(h, 0, 4, 1); }
      else if c == 2 { EvenEffect(h, 1, 0, 2); } else if c == 3 { OddEffect(h, 1, 0, 2); }
      else if c == 4 { EvenEffect(h, 2, 1, 3); } else if c == 5 { OddEffect(h, 2, 1, 3); }
      else if c == 6 { EvenEffect(h, 3, 2, 4); } else if c == 7 { OddEffect(h, 3, 2, 4); }
      else if c == 8 { EvenEffect(h, 4, 3, 0); } else { OddEffect(h, 4, 3, 0); }
    }
  }

  lemma EvenEffect(h: seq<Word>, x: nat, u: nat, v: nat)
    requires |h| == 50 && x < 5 && u == (x + 4) % 5 && v == (x + 1) % 5
    ensures Effect(h, x, 0) == WordXor(ColumnSum(h, u, 0), Rol32(ColumnSum(h, v, 1), 1))
  {
    hide WordXor, Rol32, ColumnSum;
  }

  lemma OddEffect(h: seq<Word>, x: nat, u: nat, v: nat)
    requires |h| == 50 && x < 5 && u == (x + 4) % 5 && v == (x + 1) % 5
    ensures Effect(h, x, 1) == WordXor(ColumnSum(h, u, 1), ColumnSum(h, v, 0))
  {
    hide WordXor, Rol32, ColumnSum;
  }

  // ----- chi

  /** Bx: `ROL32((word ^ D), rot)`. */
  function Term(a: seq<Word>, d: seq<Word>, t: KeccakTable.Term): Word
    requires |a| == 50 && |d| == 10 && t.word < 50 && t.d < 10 && t.rot < 32
  {
    Rol32(WordXor(a[t.word], d[t.d]), t.rot)
  }

  /** The lines of a group are in range and write different words. */
  ghost predicate GroupOk(t: Group) {
    && (forall x :: 0 <= x < 5 ==> t.B(x).word < 50 && t.B(x).d < 10 && t.B(x).rot < 32 && t.Out(x) < 50)
    && (forall x, y :: 0 <= x < y < 5 ==> t.Out(x) != t.Out(y))
  }

  /** The state after a group of lines; rc is what the first line of the first two groups adds. */
  function AfterGroup(a: seq<Word>, d: seq<Word>, t: Group, rc: Word): (s: seq<Word>)
    requires |a| == 50 && |d| == 10 && GroupOk(t)
    ensures |s| == 50
  {
    a[t.Out(0) := WordXor(ChiTerm(a, d, t, 0), rc)][t.Out(1) := ChiTerm(a, d, t, 1)]
     [t.Out(2) := ChiTerm(a, d, t, 2)][t.Out(3) := ChiTerm(a, d, t, 3)][t.Out(4) := ChiTerm(a, d, t, 4)]
  }

  function ChiTerm(a: seq<Word>, d: seq<Word>, t: Group, x: nat): Word
    requires |a| == 50 && |d| == 10 && GroupOk(t) && x < 5
  {
    ChiWord(Term(a, d, t.B(x)), Term(a, d, t.B((x + 1) % 5)), Term(a, d, t.B((x + 2) % 5)))
  }

  const NOTHING: Word := seq(32, _ => false)

  lemma XorNothing(a: Word)
    ensures WordXor(a, NOTHING) == a
  {
  }

  /** One group of lines: Ba .. Bu are computed first, then five words are overwritten. */
  method ChiGroup(a: array<Word>, d: seq<Word>, t: Group, first: bool, rc: Word)
    requires a.Length == 50 && |d| == 10 && GroupOk(t)
    modifies a
    ensures a[..] == AfterGroup(old(a[..]), d, t, if first then rc else NOTHING)
  {
    hide WordXor, WordAnd, WordNot, Term, AfterGroup;
    TermsOk(t);
    hide GroupOk;
    ghost var s := a[..];
    var ba, be, bi := Term(a[..], d, t.a), Term(a[..], d, t.e), Term(a[..], d, t.i);
    var bo, bu := Term(a[..], d, t.o), Term(a[..], d, t.u);
    a[t.wa] := WordXor(ba, WordAnd(WordNot(be), bi));
    if first {
      a[t.wa] := WordXor(a[t.wa], rc);
    }
    a[t.we] := WordXor(be, WordAnd(WordNot(bi), bo));
    a[t.wi] := WordXor(bi, WordAnd(WordNot(bo), bu));
    a[t.wo] := WordXor(bo, WordAnd(WordNot(bu), ba));
    a[t.wu] := WordXor(bu, WordAnd(WordNot(ba), be));
    XorNothing(WordXor(ba, WordAnd(WordNot(be), bi)));
    AfterGroupIs(s, d, t, if first then rc else NOTHING, ba, be, bi, bo, bu);
  }

  lemma TermsOk(t: Group)
    requires GroupOk(t)
    ensures t.a.word < 50 && t.a.d < 10 && t.a.rot < 32 && t.e.word < 50 && t.e.d < 10 && t.e.rot < 32
    ensures t.i.word < 50 && t.i.d < 10 && t.i.rot < 32 && t.o.word < 50 && t.o.d < 10 && t.o.rot < 32
    ensures t.u.word < 50 && t.u.d < 10 && t.u.rot < 32 && t.wa < 50 && t.we < 50 && t.wi < 50 && t.wo < 50 && t.wu < 50
  {
    assert t.B(0) == t.a && t.B(1) == t.e && t.B(2) == t.i && t.B(3) == t.o && t.B(4) == t.u;
    assert t.Out(0) == t.wa && t.Out(1) == t.we && t.Out(2) == t.wi && t.Out(3) == t.wo && t.Out(4) == t.wu;
  }

  lemma AfterGroupIs(s: seq<Word>, d: seq<Word>, t: Group, rc: Word, ba: Word, be: Word, bi: Word, bo: Word, bu: Word)
    requires |s| == 50 && |d| == 10 && GroupOk(t)
    requires t.a.word < 50 && t.a.d < 10 && t.a.rot < 32 && t.e.word < 50 && t.e.d < 10 && t.e.rot < 32
    requires t.i.word < 50 && t.i.d < 10 && t.i.rot < 32 && t.o.word < 50 && t.o.d < 10 && t.o.rot < 32
    requires t.u.word < 50 && t.u.d < 10 && t.u.rot < 32 && t.wa < 50 && t.we < 50 && t.wi < 50 && t.wo < 50
        && t.wu < 50
    requires ba == Term(s, d, t.a) && be == Term(s, d, t.e) && bi == Term(s, d, t.i) && bo == Term(s, d, t.o)
        && bu == Term(s, d, t.u)
    ensures var c := WordXor(ba, WordAnd(WordNot(be), bi));
            AfterGroup(s, d, t, rc) == s[t.wa := WordXor(c, rc)][t.we := WordXor(be, WordAnd(WordNot(bi), bo))]
                                        [t.wi := WordXor(bi, WordAnd(WordNot(bo), bu))][t.wo := WordXor(bo,
                                            WordAnd(WordNot(bu), ba))]
                                        [t.wu := WordXor(bu, WordAnd(WordNot(ba), be))]
  {
    hide WordXor, WordAnd, WordNot, Term, GroupOk;
    assert t.B(0) == t.a && t.B(1) == t.e && t.B(2) == t.i && t.B(3) == t.o && t.B(4) == t.u;
    assert t.Out(0) == t.wa && t.Out(1) == t.we && t.Out(2) == t.wi && t.Out(3) == t.wo && t.Out(4) == t.wu;
  }

  lemma AfterGroupAt(a: seq<Word>, d: seq<Word>, t: Group, rc: Word, w: nat)
    requires |a| == 50 && |d| == 10 && GroupOk(t) && w < 50
    ensures forall x :: 0 <= x < 5 && w == t.Out(x) ==>
      AfterGroup(a, d, t, rc)[w] == if x == 0 then WordXor(ChiTerm(a, d, t, x), rc) else ChiTerm(a, d, t, x)
    ensures (forall x :: 0 <= x < 5 ==> w != t.Out(x)) ==> AfterGroup(a, d, t, rc)[w] == a[w]
  {
    hide WordXor, ChiTerm;
    forall x | 0 <= x < 5 && w == t.Out(x)
      ensures AfterGroup(a, d, t, rc)[w] == if x == 0 then WordXor(ChiTerm(a, d, t, x), rc) else ChiTerm(a, d, t, x)
    {
      if x == 0 {} else if x == 1 {} else if x == 2 {} else if x == 3 {} else {}
    }
  }

  // ----- one round

  lemma GroupIsOk(r: nat, y: nat, p: nat)
    requires r < 4 && y < 5 && p < 2
    ensures GroupOk(Groups(r, 2 * y + p))
  {
    hide Groups, GroupOf, Offset, SourceHalf, SourceX, WordOffset, Place;
    var t := Groups(r, 2 * y + p);
    forall x | 0 <= x < 5
      ensures t.B(x).word < 50 && t.B(x).d < 10 && t.B(x).rot < 32 && t.Out(x) < 50 && t.Out(x) % 10 / 2 == x
    {
      LinesFit(r, x, y, p);
    }
  }

  /** g groups of round r are done: they hold the next state, and what later groups will read is untouched. */
  ghost predicate Midway(a: seq<Word>, a0: seq<Word>, h: seq<Word>, rc: seq<Word>, r: nat, s: nat, g: nat) {
    && |a| == |a0| == |h| == 50 && |rc| == 2 && r < 4 && s == r + 1
    && (forall x: nat, y: nat, p: nat :: x < 5 && y < 5 && p < 2 && 2 * y + p < g ==>
          Place(s, x, y, p) < 50 && a[Place(s, x, y, p)] == NextWord(h, rc, x, y, p))
    && (forall w: nat :: w < 50 && GroupOf(r, w) >= g ==> a[w] == a0[w])
  }

  /** Line x of a group computes the word that rho and pi move to (x, y). */
  lemma TermIsMoved(a: seq<Word>, a0: seq<Word>, h: seq<Word>, rc: seq<Word>, d: seq<Word>, r: nat, x: nat, y: nat,
      p: nat, t: Group)
    requires r < 4 && x < 5 && y < 5 && p < 2 && Midway(a, a0, h, rc, r, r + 1, 2 * y + p) && Placed(a0, h, r)
    requires |d| == 10 && (forall c :: 0 <= c < 10 ==>
          d[c] == Effect(h, c / 2, c % 2)) && t == Groups(r, 2 * y + p) && GroupOk(t)
    ensures Term(a, d, t.B(x)) == Moved(h, x, y, p)
  {
    hide Groups, GroupOf, Offset, SourceX, SourceHalf, WordOffset, Place, Effect, Rol32, WordXor, NextWord, GroupOk,
        Half;
    LinesFit(r, x, y, p);
    var u := SourceX(x, y);
    var q := SourceHalf(Offset(5 * x + u), p);
    assert a0[Place(r, u, x, q)] == h[Half(u, x, q)];
    assert (2 * u + q) / 2 == u && (2 * u + q) % 2 == q;
  }

  lemma GroupStep(a: seq<Word>, a0: seq<Word>, h: seq<Word>, rc: seq<Word>, d: seq<Word>, r: nat, s: nat, y: nat,
      p: nat, g: nat, t: Group)
    requires r < 4 && y < 5 && p < 2 && g == 2 * y + p && Midway(a, a0, h, rc, r, s, g) && Placed(a0, h, r)
    requires |d| == 10 && (forall c :: 0 <= c < 10 ==>
          d[c] == Effect(h, c / 2, c % 2)) && t == Groups(r, g) && GroupOk(t)
    ensures Midway(AfterGroup(a, d, t, if g < 2 then rc[g] else NOTHING), a0, h, rc, r, s, g + 1)
  {
    hide Groups, GroupOf, Effect, WordXor, Term, AfterGroup, ChiTerm, GroupOk, Place, NextWord, Moved, Placed;
    var v := if g < 2 then rc[g] else NOTHING;
    var b := AfterGroup(a, d, t, v);
    forall x: nat, y1: nat, p1: nat | x < 5 && y1 < 5 && p1 < 2 && 2 * y1 + p1 < g + 1
      ensures Place(s, x, y1, p1) < 50 && b[Place(s, x, y1, p1)] == NextWord(h, rc, x, y1, p1)
    {
      var w := Place(s, x, y1, p1);
      LineOut(r, x, y1, p1);
      AfterGroupAt(a, d, t, v, w);
      if 2 * y1 + p1 == g {
        assert y1 == y && p1 == p;
        assert t.Out(x) == w;
        LineComputes(a, a0, h, rc, d, r, s, x, y, p, g, t);
      } else {
        OutsInGroup(r, y, p, g, t);
      }
    }
    forall w: nat | w < 50 && GroupOf(r, w) >= g + 1 ensures b[w] == a0[w] {
      AfterGroupAt(a, d, t, v, w);
      OutsInGroup(r, y, p, g, t);
    }
  }

  lemma LineOut(r: nat, x: nat, y: nat, p: nat)
    requires r < 4 && x < 5 && y < 5 && p < 2
    ensures Place(r + 1, x, y, p) < 50 && Groups(r, 2 * y + p).Out(x) == Place(r + 1, x, y, p)
    ensures GroupOf(r, Place(r + 1, x, y, p)) == 2 * y + p
  {
    hide Groups, GroupOf, Offset, SourceX, SourceHalf, WordOffset, Place;
    LinesFit(r, x, y, p);
  }

  lemma OutsInGroup(r: nat, y: nat, p: nat, g: nat, t: Group)
    requires r < 4 && y < 5 && p < 2 && g == 2 * y + p && t == Groups(r, g)
    ensures forall x :: 0 <= x < 5 ==> t.Out(x) < 50 && GroupOf(r, t.Out(x)) == g
  {
    hide Groups, GroupOf, Place;
    forall x | 0 <= x < 5 ensures t.Out(x) < 50 && GroupOf(r, t.Out(x)) == g {
      LineOut(r, x, y, p);
    }
  }

  lemma LineComputes(a: seq<Word>, a0: seq<Word>, h: seq<Word>, rc: seq<Word>, d: seq<Word>, r: nat, s: nat, x: nat,
      y: nat, p: nat, g: nat, t: Group)
    requires r < 4 && s == r + 1 && x < 5 && y < 5 && p < 2 && g == 2 * y + p && Midway(a, a0, h, rc, r, s, g)
        && Placed(a0, h, r)
    requires |a| == |h| == 50 && |d| == 10 && (forall c :: 0 <= c < 10 ==>
          d[c] == Effect(h, c / 2, c % 2)) && t == Groups(r, g) && GroupOk(t)
    ensures var v := if g < 2 then rc[g] else NOTHING;
            (if x == 0 then WordXor(ChiTerm(a, d, t, x), v) else ChiTerm(a, d, t, x)) == NextWord(h, rc, x, y, p)
  {
    hide Groups, Effect, WordXor, Term, GroupOk, Moved, Placed, Midway, ChiWord;
    TermIsMoved(a, a0, h, rc, d, r, x, y, p, t);
    TermIsMoved(a, a0, h, rc, d, r, (x + 1) % 5, y, p, t);
    TermIsMoved(a, a0, h, rc, d, r, (x + 2) % 5, y, p, t);
    XorNothing(ChiTerm(a, d, t, x));
  }

  lemma MidwayStart(a: seq<Word>, h: seq<Word>, rc: seq<Word>, r: nat, s: nat)
    requires |a| == |h| == 50 && |rc| == 2 && r < 4 && s == r + 1
    ensures Midway(a, a, h, rc, r, s, 0)
  {
  }

  lemma MidwayEnd(b: seq<Word>, a: seq<Word>, h: seq<Word>, rc: seq<Word>, r: nat, s: nat)
    requires |h| == 50 && |rc| == 2 && Midway(b, a, h, rc, r, s, 10)
    ensures Placed(b, NextHalves(h, rc), s)
  {
    hide Place, NextWord, GroupOf, Half;
    forall x: nat, y: nat, p: nat | x < 5 && y < 5 && p < 2
      ensures Place(s, x, y, p) < 50 && b[Place(s, x, y, p)] == NextHalves(h, rc)[Half(x, y, p)]
    {
      HalfParts(x, y, p);
    }
  }

  /** `KeccakRound0` .. `KeccakRound3`. */
  method KeccakRound(a: array<Word>, r: nat, rc: seq<Word>, ghost h: seq<Word>)
    requires a.Length == |h| == 50 && r < 4 && |rc| == 2 && Placed(a[..], h, r)
    modifies a
    ensures Placed(a[..], NextHalves(h, rc), r + 1)
  {
    hide Placed, Midway, Effect, Groups, AfterGroup, GroupOk;
    ghost var a0 := a[..];
    var d := Theta(a, r, h);
    MidwayStart(a0, h, rc, r, r + 1);
    var g: nat := 0;
    while g < 10
      invariant g <= 10 && Midway(a[..], a0, h, rc, r, r + 1, g)
    {
      var t := Groups(r, g);
      GroupIsOk(r, g / 2, g % 2);
      GroupStep(a[..], a0, h, rc, d, r, r + 1, g / 2, g % 2, g, t);
      ChiGroup(a, d, t, g < 2, rc[g % 2]);
      g := g + 1;
    }
    MidwayEnd(a[..], a0, h, rc, r, r + 1);
  }

  // ----- all rounds

  lemma NextRound(h: seq<Word>, s: Bits, n: nat)
    requires |h| == 50 && |s| == 1600 && n < 24 && StateOf(h) == Rounds(s, n)
    ensures StateOf(NextHalves(h, ConstantWords(n))) == Rounds(s, n + 1)
  {
    hide StateOf, NextHalves, ConstantWords, Round;
    ConstantsFit(n);
    HalvesRefineRound(h, ConstantWords(n), n);
  }

  /** One pass of the loop: four rounds, each leaving the state where the next one looks for it. */
  method FourRounds(a: array<Word>, i: nat, ghost s: Bits)
    requires a.Length == 50 && i + 8 <= 48 && i % 2 == 0 && |s| == 1600 && StateOf(a[..]) == Rounds(s, i / 2)
    modifies a
    ensures StateOf(a[..]) == Rounds(s, i / 2 + 4)
  {
    hide StateOf, NextHalves, ConstantWords, Placed, Rounds;
    ghost var h, n := a[..], i / 2;
    PlacedFirst(h);
    NextRound(h, s, n);
    KeccakRound(a, 0, ConstantWords(i / 2), h);
    h := NextHalves(h, ConstantWords(n));
    NextRound(h, s, n + 1);
    KeccakRound(a, 1, ConstantWords(i / 2 + 1), h);
    h := NextHalves(h, ConstantWords(n + 1));
    NextRound(h, s, n + 2);
    KeccakRound(a, 2, ConstantWords(i / 2 + 2), h);
    h := NextHalves(h, ConstantWords(n + 2));
    NextRound(h, s, n + 3);
    KeccakRound(a, 3, ConstantWords(i / 2 + 3), h);
    PlacedLast(a[..], NextHalves(h, ConstantWords(n + 3)));
  }

  /** The end mark follows the last of the 24 constants, and no constant that a pass starts with looks like it. */
  lemma EndMark(i: nat)
    requires i <= 48 && i % 8 == 0
    ensures RoundConstant(i) == 0xff <==> i == 48
  {
  }

  /** `KeccakP1600_Permute_Nrounds` with 24 rounds: Keccak-f[1600]. */
  method Permute(a: array<Word>)
    requires a.Length == 50
    modifies a
    ensures StateOf(a[..]) == KeccakF(StateOf(old(a[..])))
  {
    hide StateOf, Round, RoundConstant;
    ghost var s := StateOf(a[..]);
    var i: nat := 0;
    var more := true;
    while more
      invariant i <= 48 && i % 8 == 0 && more == (i < 48)
      invariant StateOf(a[..]) == Rounds(s, i / 2)
      decreases 48 - i
    {
      FourRounds(a, i, s);
      i := i + 8;
      EndMark(i);
      more := RoundConstant(i) != 0xff;
    }
  }
}
