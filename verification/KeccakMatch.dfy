/** The transcribed tables fit together: every line of the four rounds does its part of theta, rho, pi and chi. */
module KeccakMatch {
  import opened KeccakSpec
  import opened Halves
  import opened KeccakTable

  /** Where word p of lane (x, y) is kept before round r: read off the theta lines of that round. */
  function Place(r: nat, x: nat, y: nat, p: nat): nat
    requires r <= 4 && x < 5 && y < 5 && p < 2
  {
    Columns(r, 2 * x + p).At(y)
  }

  function GroupOf0(w: nat): nat
    requires w < 50
  {
    if w < 10 then [0, 1, 5, 4, 8, 9, 2, 3, 7, 6][w]
    else if w < 20 then [6, 7, 0, 1, 4, 5, 9, 8, 2, 3][w - 10]
    else if w < 30 then [3, 2, 6, 7, 1, 0, 5, 4, 9, 8][w - 20]
    else if w < 40 then [9, 8, 3, 2, 7, 6, 1, 0, 4, 5][w - 30]
    else [4, 5, 8, 9, 3, 2, 6, 7, 0, 1][w - 40]
  }

  function GroupOf1(w: nat): nat
    requires w < 50
  {
    if w < 10 then [0, 1, 7, 6, 3, 2, 9, 8, 5, 4][w]
    else if w < 20 then [9, 8, 5, 4, 1, 0, 7, 6, 2, 3][w - 10]
    else if w < 30 then [7, 6, 3, 2, 9, 8, 4, 5, 1, 0][w - 20]
    else if w < 40 then [5, 4, 1, 0, 6, 7, 3, 2, 9, 8][w - 30]
    else [3, 2, 8, 9, 5, 4, 1, 0, 7, 6][w - 40]
  }

  function GroupOf2(w: nat): nat
    requires w < 50
  {
    if w < 10 then [0, 1, 2, 3, 5, 4, 7, 6, 8, 9][w]
    else if w < 20 then [5, 4, 7, 6, 9, 8, 0, 1, 2, 3][w - 10]
    else if w < 30 then [8, 9, 1, 0, 2, 3, 5, 4, 6, 7][w - 20]
    else if w < 40 then [2, 3, 4, 5, 7, 6, 8, 9, 1, 0][w - 30]
    else [7, 6, 8, 9, 0, 1, 3, 2, 5, 4][w - 40]
  }

  function GroupOf3(w: nat): nat
    requires w < 50
  {
    if w < 10 then [0, 1, 0, 1, 0, 1, 0, 1, 0, 1][w]
    else if w < 20 then [2, 3, 2, 3, 2, 3, 2, 3, 2, 3][w - 10]
    else if w < 30 then [4, 5, 4, 5, 4, 5, 4, 5, 4, 5][w - 20]
    else if w < 40 then [6, 7, 6, 7, 6, 7, 6, 7, 6, 7][w - 30]
    else [8, 9, 8, 9, 8, 9, 8, 9, 8, 9][w - 40]
  }

  /** The group of lines that reads and writes a word in round r. */
  function GroupOf(r: nat, w: nat): nat
    requires r < 4 && w < 50
  {
    if r == 0 then GroupOf0(w) else if r == 1 then GroupOf1(w) else if r == 2 then GroupOf2(w) else GroupOf3(w)
  }

  /** Line x of the group for row y, word p, of round r reads, adds, rotates and writes what it should. */
  predicate LineFits(r: nat, x: nat, y: nat, p: nat)
    requires r < 4 && x < 5 && y < 5 && p < 2
  {
    var g, u := Groups(r, 2 * y + p), SourceX(x, y);
    var n := Offset(5 * x + u);
    var q := SourceHalf(n, p);
    && g.B(x) == Term(Place(r, u, x, q), 2 * u + q, WordOffset(n, p))
    && g.Out(x) == Place(r + 1, x, y, p)
    && g.B(x).word < 50 && g.Out(x) < 50
    && GroupOf(r, g.B(x).word) == GroupOf(r, g.Out(x)) == 2 * y + p
    && g.Out(x) % 10 / 2 == x
  }

  /** LineFits from numbers: u, q and m are the source column, its word and the rotation count. */
  lemma Line(r: nat, x: nat, y: nat, p: nat, g: nat, c: nat, u: nat, q: nat, m: nat, word: nat, out: nat)
    requires r < 4 && x < 5 && y < 5 && p < 2 && g == 2 * y + p && u < 5 && q < 2 && c == 2 * u + q
    requires Groups(r, g).B(x) == Term(word, c, m) && Groups(r, g).Out(x) == out
    requires Columns(r, c).At(x) == word && Columns(r + 1, 2 * x + p).At(y) == out
    requires word < 50 && out < 50 && GroupOf(r, word) == g && GroupOf(r, out) == g && out % 10 / 2 == x
    requires (x + 3 * y == u || x + 3 * y == u + 5 || x + 3 * y == u + 10 || x + 3 * y == u + 15)
        && Offset(5 * x + u) == 2 * m + p - q
    ensures LineFits(r, x, y, p)
  {
    hide Groups, Columns, GroupOf, Offset, SourceHalf, WordOffset, SourceX;
    SourceColumn(x, y, u);
    SourceParts(2 * m + p - q, p, q, m);
  }

  lemma SourceColumn(x: nat, y: nat, u: nat)
    requires u < 5 && (x + 3 * y == u || x + 3 * y == u + 5 || x + 3 * y == u + 10 || x + 3 * y == u + 15)
    ensures SourceX(x, y) == u
  {
  }

  lemma SourceParts(n: nat, p: nat, q: nat, m: nat)
    requires n < 63 && p < 2 && q < 2 && n == 2 * m + p - q
    ensures SourceHalf(n, p) == q && WordOffset(n, p) == m
  {
  }

  lemma Group00()
    ensures forall x :: 0 <= x < 5 ==> LineFits(0, x, 0, 0)
  {
    hide LineFits;
    Line(0, 0, 0, 0, 0, 0, 0, 0, 0, 0, 0);
    Line(0, 1, 0, 0, 0, 2, 1, 0, 22, 12, 12);
    Line(0, 2, 0, 0, 0, 5, 2, 1, 22, 25, 25);
    Line(0, 3, 0, 0, 0, 7, 3, 1, 11, 37, 37);
    Line(0, 4, 0, 0, 0, 8, 4, 0, 7, 48, 48);
  }

  lemma Group01()
    ensures forall x :: 0 <= x < 5 ==> LineFits(0, x, 0, 1)
  {
    hide LineFits;
    Line(0, 0, 0, 1, 1, 1, 0, 1, 0, 1, 1);
    Line(0, 1, 0, 1, 1, 3, 1, 1, 22, 13, 13);
    Line(0, 2, 0, 1, 1, 4, 2, 0, 21, 24, 24);
    Line(0, 3, 0, 1, 1, 6, 3, 0, 10, 36, 36);
    Line(0, 4, 0, 1, 1, 9, 4, 1, 7, 49, 49);
  }

  lemma Group02()
    ensures forall x :: 0 <= x < 5 ==> LineFits(0, x, 1, 0)
  {
    hide LineFits;
    Line(0, 0, 1, 0, 2, 6, 3, 0, 14, 6, 21);
    Line(0, 1, 1, 0, 2, 8, 4, 0, 10, 18, 33);
    Line(0, 2, 1, 0, 2, 1, 0, 1, 2, 21, 45);
    Line(0, 3, 1, 0, 2, 3, 1, 1, 23, 33, 6);
    Line(0, 4, 1, 0, 2, 5, 2, 1, 31, 45, 18);
  }

  lemma Group03()
    ensures forall x :: 0 <= x < 5 ==> LineFits(0, x, 1, 1)
  {
    hide LineFits;
    Line(0, 0, 1, 1, 3, 7, 3, 1, 14, 7, 20);
    Line(0, 1, 1, 1, 3, 9, 4, 1, 10, 19, 32);
    Line(0, 2, 1, 1, 3, 0, 0, 0, 1, 20, 44);
    Line(0, 3, 1, 1, 3, 2, 1, 0, 22, 32, 7);
    Line(0, 4, 1, 1, 3, 4, 2, 0, 30, 44, 19);
  }

  lemma Group04()
    ensures forall x :: 0 <= x < 5 ==> LineFits(0, x, 2, 0)
  {
    hide LineFits;
    Line(0, 0, 2, 0, 4, 3, 1, 1, 1, 3, 40);
    Line(0, 1, 2, 0, 4, 4, 2, 0, 3, 14, 3);
    Line(0, 2, 2, 0, 4, 7, 3, 1, 13, 27, 14);
    Line(0, 3, 2, 0, 4, 8, 4, 0, 4, 38, 27);
    Line(0, 4, 2, 0, 4, 0, 0, 0, 9, 40, 38);
  }

  lemma Group05()
    ensures forall x :: 0 <= x < 5 ==> LineFits(0, x, 2, 1)
  {
    hide LineFits;
    Line(0, 0, 2, 1, 5, 2, 1, 0, 0, 2, 41);
    Line(0, 1, 2, 1, 5, 5, 2, 1, 3, 15, 2);
    Line(0, 2, 2, 1, 5, 6, 3, 0, 12, 26, 15);
    Line(0, 3, 2, 1, 5, 9, 4, 1, 4, 39, 26);
    Line(0, 4, 2, 1, 5, 1, 0, 1, 9, 41, 39);
  }

  lemma Group06()
    ensures forall x :: 0 <= x < 5 ==> LineFits(0, x, 3, 0)
  {
    hide LineFits;
    Line(0, 0, 3, 0, 6, 9, 4, 1, 14, 9, 10);
    Line(0, 1, 3, 0, 6, 0, 0, 0, 18, 10, 22);
    Line(0, 2, 3, 0, 6, 2, 1, 0, 5, 22, 35);
    Line(0, 3, 3, 0, 6, 5, 2, 1, 8, 35, 46);
    Line(0, 4, 3, 0, 6, 6, 3, 0, 28, 46, 9);
  }

  lemma Group07()
    ensures forall x :: 0 <= x < 5 ==> LineFits(0, x, 3, 1)
  {
    hide LineFits;
    Line(0, 0, 3, 1, 7, 8, 4, 0, 13, 8, 11);
    Line(0, 1, 3, 1, 7, 1, 0, 1, 18, 11, 23);
    Line(0, 2, 3, 1, 7, 3, 1, 1, 5, 23, 34);
    Line(0, 3, 3, 1, 7, 4, 2, 0, 7, 34, 47);
    Line(0, 4, 3, 1, 7, 7, 3, 1, 28, 47, 8);
  }

  lemma Group08()
    ensures forall x :: 0 <= x < 5 ==> LineFits(0, x, 4, 0)
  {
    hide LineFits;
    Line(0, 0, 4, 0, 8, 4, 2, 0, 31, 4, 31);
    Line(0, 1, 4, 0, 8, 7, 3, 1, 28, 17, 42);
    Line(0, 2, 4, 0, 8, 9, 4, 1, 20, 29, 4);
    Line(0, 3, 4, 0, 8, 1, 0, 1, 21, 31, 17);
    Line(0, 4, 4, 0, 8, 2, 1, 0, 1, 42, 29);
  }

  lemma Group09()
    ensures forall x :: 0 <= x < 5 ==> LineFits(0, x, 4, 1)
  {
    hide LineFits;
    Line(0, 0, 4, 1, 9, 5, 2, 1, 31, 5, 30);
    Line(0, 1, 4, 1, 9, 6, 3, 0, 27, 16, 43);
    Line(0, 2, 4, 1, 9, 8, 4, 0, 19, 28, 5);
    Line(0, 3, 4, 1, 9, 0, 0, 0, 20, 30, 16);
    Line(0, 4, 4, 1, 9, 3, 1, 1, 1, 43, 28);
  }

  lemma Group10()
    ensures forall x :: 0 <= x < 5 ==> LineFits(1, x, 0, 0)
  {
    hide LineFits;
    Line(1, 0, 0, 0, 0, 0, 0, 0, 0, 0, 0);
    Line(1, 1, 0, 0, 0, 2, 1, 0, 22, 33, 33);
    Line(1, 2, 0, 0, 0, 5, 2, 1, 22, 15, 15);
    Line(1, 3, 0, 0, 0, 7, 3, 1, 11, 47, 47);
    Line(1, 4, 0, 0, 0, 8, 4, 0, 7, 29, 29);
  }

  lemma Group11()
    ensures forall x :: 0 <= x < 5 ==> LineFits(1, x, 0, 1)
  {
    hide LineFits;
    Line(1, 0, 0, 1, 1, 1, 0, 1, 0, 1, 1);
    Line(1, 1, 0, 1, 1, 3, 1, 1, 22, 32, 32);
    Line(1, 2, 0, 1, 1, 4, 2, 0, 21, 14, 14);
    Line(1, 3, 0, 1, 1, 6, 3, 0, 10, 46, 46);
    Line(1, 4, 0, 1, 1, 9, 4, 1, 7, 28, 28);
  }

  lemma Group12()
    ensures forall x :: 0 <= x < 5 ==> LineFits(1, x, 1, 0)
  {
    hide LineFits;
    Line(1, 0, 1, 0, 2, 6, 3, 0, 14, 37, 41);
    Line(1, 1, 1, 0, 2, 8, 4, 0, 10, 18, 23);
    Line(1, 2, 1, 0, 2, 1, 0, 1, 2, 41, 5);
    Line(1, 3, 1, 0, 2, 3, 1, 1, 23, 23, 37);
    Line(1, 4, 1, 0, 2, 5, 2, 1, 31, 5, 18);
  }

  lemma Group13()
    ensures forall x :: 0 <= x < 5 ==> LineFits(1, x, 1, 1)
  {
    hide LineFits;
    Line(1, 0, 1, 1, 3, 7, 3, 1, 14, 36, 40);
    Line(1, 1, 1, 1, 3, 9, 4, 1, 10, 19, 22);
    Line(1, 2, 1, 1, 3, 0, 0, 0, 1, 40, 4);
    Line(1, 3, 1, 1, 3, 2, 1, 0, 22, 22, 36);
    Line(1, 4, 1, 1, 3, 4, 2, 0, 30, 4, 19);
  }

  lemma Group14()
    ensures forall x :: 0 <= x < 5 ==> LineFits(1, x, 2, 0)
  {
    hide LineFits;
    Line(1, 0, 2, 0, 4, 3, 1, 1, 1, 13, 31);
    Line(1, 1, 2, 0, 4, 4, 2, 0, 3, 45, 13);
    Line(1, 2, 2, 0, 4, 7, 3, 1, 13, 26, 45);
    Line(1, 3, 2, 0, 4, 8, 4, 0, 4, 9, 26);
    Line(1, 4, 2, 0, 4, 0, 0, 0, 9, 31, 9);
  }

  lemma Group15()
    ensures forall x :: 0 <= x < 5 ==> LineFits(1, x, 2, 1)
  {
    hide LineFits;
    Line(1, 0, 2, 1, 5, 2, 1, 0, 0, 12, 30);
    Line(1, 1, 2, 1, 5, 5, 2, 1, 3, 44, 12);
    Line(1, 2, 2, 1, 5, 6, 3, 0, 12, 27, 44);
    Line(1, 3, 2, 1, 5, 9, 4, 1, 4, 8, 27);
    Line(1, 4, 2, 1, 5, 1, 0, 1, 9, 30, 8);
  }

  lemma Group16()
    ensures forall x :: 0 <= x < 5 ==> LineFits(1, x, 3, 0)
  {
    hide LineFits;
    Line(1, 0, 3, 0, 6, 9, 4, 1, 14, 49, 21);
    Line(1, 1, 3, 0, 6, 0, 0, 0, 18, 21, 3);
    Line(1, 2, 3, 0, 6, 2, 1, 0, 5, 3, 34);
    Line(1, 3, 3, 0, 6, 5, 2, 1, 8, 34, 17);
    Line(1, 4, 3, 0, 6, 6, 3, 0, 28, 17, 49);
  }

  lemma Group17()
    ensures forall x :: 0 <= x < 5 ==> LineFits(1, x, 3, 1)
  {
    hide LineFits;
    Line(1, 0, 3, 1, 7, 8, 4, 0, 13, 48, 20);
    Line(1, 1, 3, 1, 7, 1, 0, 1, 18, 20, 2);
    Line(1, 2, 3, 1, 7, 3, 1, 1, 5, 2, 35);
    Line(1, 3, 3, 1, 7, 4, 2, 0, 7, 35, 16);
    Line(1, 4, 3, 1, 7, 7, 3, 1, 28, 16, 48);
  }

  lemma Group18()
    ensures forall x :: 0 <= x < 5 ==> LineFits(1, x, 4, 0)
  {
    hide LineFits;
    Line(1, 0, 4, 0, 8, 4, 2, 0, 31, 25, 11);
    Line(1, 1, 4, 0, 8, 7, 3, 1, 28, 7, 42);
    Line(1, 2, 4, 0, 8, 9, 4, 1, 20, 39, 25);
    Line(1, 3, 4, 0, 8, 1, 0, 1, 21, 11, 7);
    Line(1, 4, 4, 0, 8, 2, 1, 0, 1, 42, 39);
  }

  lemma Group19()
    ensures forall x :: 0 <= x < 5 ==> LineFits(1, x, 4, 1)
  {
    hide LineFits;
    Line(1, 0, 4, 1, 9, 5, 2, 1, 31, 24, 10);
    Line(1, 1, 4, 1, 9, 6, 3, 0, 27, 6, 43);
    Line(1, 2, 4, 1, 9, 8, 4, 0, 19, 38, 24);
    Line(1, 3, 4, 1, 9, 0, 0, 0, 20, 10, 6);
    Line(1, 4, 4, 1, 9, 3, 1, 1, 1, 43, 38);
  }

  lemma Group20()
    ensures forall x :: 0 <= x < 5 ==> LineFits(2, x, 0, 0)
  {
    hide LineFits;
    Line(2, 0, 0, 0, 0, 0, 0, 0, 0, 0, 0);
    Line(2, 1, 0, 0, 0, 2, 1, 0, 22, 23, 23);
    Line(2, 2, 0, 0, 0, 5, 2, 1, 22, 44, 44);
    Line(2, 3, 0, 0, 0, 7, 3, 1, 11, 16, 16);
    Line(2, 4, 0, 0, 0, 8, 4, 0, 7, 39, 39);
  }

  lemma Group21()
    ensures forall x :: 0 <= x < 5 ==> LineFits(2, x, 0, 1)
  {
    hide LineFits;
    Line(2, 0, 0, 1, 1, 1, 0, 1, 0, 1, 1);
    Line(2, 1, 0, 1, 1, 3, 1, 1, 22, 22, 22);
    Line(2, 2, 0, 1, 1, 4, 2, 0, 21, 45, 45);
    Line(2, 3, 0, 1, 1, 6, 3, 0, 10, 17, 17);
    Line(2, 4, 0, 1, 1, 9, 4, 1, 7, 38, 38);
  }

  lemma Group22()
    ensures forall x :: 0 <= x < 5 ==> LineFits(2, x, 1, 0)
  {
    hide LineFits;
    Line(2, 0, 1, 0, 2, 6, 3, 0, 14, 47, 30);
    Line(2, 1, 1, 0, 2, 8, 4, 0, 10, 18, 2);
    Line(2, 2, 1, 0, 2, 1, 0, 1, 2, 30, 24);
    Line(2, 3, 1, 0, 2, 3, 1, 1, 23, 2, 47);
    Line(2, 4, 1, 0, 2, 5, 2, 1, 31, 24, 18);
  }

  lemma Group23()
    ensures forall x :: 0 <= x < 5 ==> LineFits(2, x, 1, 1)
  {
    hide LineFits;
    Line(2, 0, 1, 1, 3, 7, 3, 1, 14, 46, 31);
    Line(2, 1, 1, 1, 3, 9, 4, 1, 10, 19, 3);
    Line(2, 2, 1, 1, 3, 0, 0, 0, 1, 31, 25);
    Line(2, 3, 1, 1, 3, 2, 1, 0, 22, 3, 46);
    Line(2, 4, 1, 1, 3, 4, 2, 0, 30, 25, 19);
  }

  lemma Group24()
    ensures forall x :: 0 <= x < 5 ==> LineFits(2, x, 2, 0)
  {
    hide LineFits;
    Line(2, 0, 2, 0, 4, 3, 1, 1, 1, 32, 11);
    Line(2, 1, 2, 0, 4, 4, 2, 0, 3, 5, 32);
    Line(2, 2, 2, 0, 4, 7, 3, 1, 13, 27, 5);
    Line(2, 3, 2, 0, 4, 8, 4, 0, 4, 49, 27);
    Line(2, 4, 2, 0, 4, 0, 0, 0, 9, 11, 49);
  }

  lemma Group25()
    ensures forall x :: 0 <= x < 5 ==> LineFits(2, x, 2, 1)
  {
    hide LineFits;
    Line(2, 0, 2, 1, 5, 2, 1, 0, 0, 33, 10);
    Line(2, 1, 2, 1, 5, 5, 2, 1, 3, 4, 33);
    Line(2, 2, 2, 1, 5, 6, 3, 0, 12, 26, 4);
    Line(2, 3, 2, 1, 5, 9, 4, 1, 4, 48, 26);
    Line(2, 4, 2, 1, 5, 1, 0, 1, 9, 10, 48);
  }

  lemma Group26()
    ensures forall x :: 0 <= x < 5 ==> LineFits(2, x, 3, 0)
  {
    hide LineFits;
    Line(2, 0, 3, 0, 6, 9, 4, 1, 14, 28, 41);
    Line(2, 1, 3, 0, 6, 0, 0, 0, 18, 41, 13);
    Line(2, 2, 3, 0, 6, 2, 1, 0, 5, 13, 35);
    Line(2, 3, 3, 0, 6, 5, 2, 1, 8, 35, 7);
    Line(2, 4, 3, 0, 6, 6, 3, 0, 28, 7, 28);
  }

  lemma Group27()
    ensures forall x :: 0 <= x < 5 ==> LineFits(2, x, 3, 1)
  {
    hide LineFits;
    Line(2, 0, 3, 1, 7, 8, 4, 0, 13, 29, 40);
    Line(2, 1, 3, 1, 7, 1, 0, 1, 18, 40, 12);
    Line(2, 2, 3, 1, 7, 3, 1, 1, 5, 12, 34);
    Line(2, 3, 3, 1, 7, 4, 2, 0, 7, 34, 6);
    Line(2, 4, 3, 1, 7, 7, 3, 1, 28, 6, 29);
  }

  lemma Group28()
    ensures forall x :: 0 <= x < 5 ==> LineFits(2, x, 4, 0)
  {
    hide LineFits;
    Line(2, 0, 4, 0, 8, 4, 2, 0, 31, 15, 20);
    Line(2, 1, 4, 0, 8, 7, 3, 1, 28, 36, 42);
    Line(2, 2, 4, 0, 8, 9, 4, 1, 20, 8, 15);
    Line(2, 3, 4, 0, 8, 1, 0, 1, 21, 20, 36);
    Line(2, 4, 4, 0, 8, 2, 1, 0, 1, 42, 8);
  }

  lemma Group29()
    ensures forall x :: 0 <= x < 5 ==> LineFits(2, x, 4, 1)
  {
    hide LineFits;
    Line(2, 0, 4, 1, 9, 5, 2, 1, 31, 14, 21);
    Line(2, 1, 4, 1, 9, 6, 3, 0, 27, 37, 43);
    Line(2, 2, 4, 1, 9, 8, 4, 0, 19, 9, 14);
    Line(2, 3, 4, 1, 9, 0, 0, 0, 20, 21, 37);
    Line(2, 4, 4, 1, 9, 3, 1, 1, 1, 43, 9);
  }

  lemma Group30()
    ensures forall x :: 0 <= x < 5 ==> LineFits(3, x, 0, 0)
  {
    hide LineFits;
    Line(3, 0, 0, 0, 0, 0, 0, 0, 0, 0, 0);
    Line(3, 1, 0, 0, 0, 2, 1, 0, 22, 2, 2);
    Line(3, 2, 0, 0, 0, 5, 2, 1, 22, 4, 4);
    Line(3, 3, 0, 0, 0, 7, 3, 1, 11, 6, 6);
    Line(3, 4, 0, 0, 0, 8, 4, 0, 7, 8, 8);
  }

  lemma Group31()
    ensures forall x :: 0 <= x < 5 ==> LineFits(3, x, 0, 1)
  {
    hide LineFits;
    Line(3, 0, 0, 1, 1, 1, 0, 1, 0, 1, 1);
    Line(3, 1, 0, 1, 1, 3, 1, 1, 22, 3, 3);
    Line(3, 2, 0, 1, 1, 4, 2, 0, 21, 5, 5);
    Line(3, 3, 0, 1, 1, 6, 3, 0, 10, 7, 7);
    Line(3, 4, 0, 1, 1, 9, 4, 1, 7, 9, 9);
  }

  lemma Group32()
    ensures forall x :: 0 <= x < 5 ==> LineFits(3, x, 1, 0)
  {
    hide LineFits;
    Line(3, 0, 1, 0, 2, 6, 3, 0, 14, 16, 10);
    Line(3, 1, 1, 0, 2, 8, 4, 0, 10, 18, 12);
    Line(3, 2, 1, 0, 2, 1, 0, 1, 2, 10, 14);
    Line(3, 3, 1, 0, 2, 3, 1, 1, 23, 12, 16);
    Line(3, 4, 1, 0, 2, 5, 2, 1, 31, 14, 18);
  }

  lemma Group33()
    ensures forall x :: 0 <= x < 5 ==> LineFits(3, x, 1, 1)
  {
    hide LineFits;
    Line(3, 0, 1, 1, 3, 7, 3, 1, 14, 17, 11);
    Line(3, 1, 1, 1, 3, 9, 4, 1, 10, 19, 13);
    Line(3, 2, 1, 1, 3, 0, 0, 0, 1, 11, 15);
    Line(3, 3, 1, 1, 3, 2, 1, 0, 22, 13, 17);
    Line(3, 4, 1, 1, 3, 4, 2, 0, 30, 15, 19);
  }

  lemma Group34()
    ensures forall x :: 0 <= x < 5 ==> LineFits(3, x, 2, 0)
  {
    hide LineFits;
    Line(3, 0, 2, 0, 4, 3, 1, 1, 1, 22, 20);
    Line(3, 1, 2, 0, 4, 4, 2, 0, 3, 24, 22);
    Line(3, 2, 2, 0, 4, 7, 3, 1, 13, 26, 24);
    Line(3, 3, 2, 0, 4, 8, 4, 0, 4, 28, 26);
    Line(3, 4, 2, 0, 4, 0, 0, 0, 9, 20, 28);
  }

  lemma Group35()
    ensures forall x :: 0 <= x < 5 ==> LineFits(3, x, 2, 1)
  {
    hide LineFits;
    Line(3, 0, 2, 1, 5, 2, 1, 0, 0, 23, 21);
    Line(3, 1, 2, 1, 5, 5, 2, 1, 3, 25, 23);
    Line(3, 2, 2, 1, 5, 6, 3, 0, 12, 27, 25);
    Line(3, 3, 2, 1, 5, 9, 4, 1, 4, 29, 27);
    Line(3, 4, 2, 1, 5, 1, 0, 1, 9, 21, 29);
  }

  lemma Group36()
    ensures forall x :: 0 <= x < 5 ==> LineFits(3, x, 3, 0)
  {
    hide LineFits;
    Line(3, 0, 3, 0, 6, 9, 4, 1, 14, 38, 30);
    Line(3, 1, 3, 0, 6, 0, 0, 0, 18, 30, 32);
    Line(3, 2, 3, 0, 6, 2, 1, 0, 5, 32, 34);
    Line(3, 3, 3, 0, 6, 5, 2, 1, 8, 34, 36);
    Line(3, 4, 3, 0, 6, 6, 3, 0, 28, 36, 38);
  }

  lemma Group37()
    ensures forall x :: 0 <= x < 5 ==> LineFits(3, x, 3, 1)
  {
    hide LineFits;
    Line(3, 0, 3, 1, 7, 8, 4, 0, 13, 39, 31);
    Line(3, 1, 3, 1, 7, 1, 0, 1, 18, 31, 33);
    Line(3, 2, 3, 1, 7, 3, 1, 1, 5, 33, 35);
    Line(3, 3, 3, 1, 7, 4, 2, 0, 7, 35, 37);
    Line(3, 4, 3, 1, 7, 7, 3, 1, 28, 37, 39);
  }

  lemma Group38()
    ensures forall x :: 0 <= x < 5 ==> LineFits(3, x, 4, 0)
  {
    hide LineFits;
    Line(3, 0, 4, 0, 8, 4, 2, 0, 31, 44, 40);
    Line(3, 1, 4, 0, 8, 7, 3, 1, 28, 46, 42);
    Line(3, 2, 4, 0, 8, 9, 4, 1, 20, 48, 44);
    Line(3, 3, 4, 0, 8, 1, 0, 1, 21, 40, 46);
    Line(3, 4, 4, 0, 8, 2, 1, 0, 1, 42, 48);
  }

  lemma Group39()
    ensures forall x :: 0 <= x < 5 ==> LineFits(3, x, 4, 1)
  {
    hide LineFits;
    Line(3, 0, 4, 1, 9, 5, 2, 1, 31, 45, 41);
    Line(3, 1, 4, 1, 9, 6, 3, 0, 27, 47, 43);
    Line(3, 2, 4, 1, 9, 8, 4, 0, 19, 49, 45);
    Line(3, 3, 4, 1, 9, 0, 0, 0, 20, 41, 47);
    Line(3, 4, 4, 1, 9, 3, 1, 1, 1, 43, 49);
  }

  lemma LinesFit(r: nat, x: nat, y: nat, p: nat)
    requires r < 4 && x < 5 && y < 5 && p < 2
    ensures LineFits(r, x, y, p)
  {
    hide *;
    if r == 0 {
      if y == 0 {
        if p == 0 { Group00(); } else { Group01(); }
      } else if y == 1 {
        if p == 0 { Group02(); } else { Group03(); }
      } else if y == 2 {
        if p == 0 { Group04(); } else { Group05(); }
      } else if y == 3 {
        if p == 0 { Group06(); } else { Group07(); }
      } else {
        if p == 0 { Group08(); } else { Group09(); }
      }
    } else if r == 1 {
      if y == 0 {
        if p == 0 { Group10(); } else { Group11(); }
      } else if y == 1 {
        if p == 0 { Group12(); } else { Group13(); }
      } else if y == 2 {
        if p == 0 { Group14(); } else { Group15(); }
      } else if y == 3 {
        if p == 0 { Group16(); } else { Group17(); }
      } else {
        if p == 0 { Group18(); } else { Group19(); }
      }
    } else if r == 2 {
      if y == 0 {
        if p == 0 { Group20(); } else { Group21(); }
      } else if y == 1 {
        if p == 0 { Group22(); } else { Group23(); }
      } else if y == 2 {
        if p == 0 { Group24(); } else { Group25(); }
      } else if y == 3 {
        if p == 0 { Group26(); } else { Group27(); }
      } else {
        if p == 0 { Group28(); } else { Group29(); }
      }
    } else {
      if y == 0 {
        if p == 0 { Group30(); } else { Group31(); }
      } else if y == 1 {
        if p == 0 { Group32(); } else { Group33(); }
      } else if y == 2 {
        if p == 0 { Group34(); } else { Group35(); }
      } else if y == 3 {
        if p == 0 { Group36(); } else { Group37(); }
      } else {
        if p == 0 { Group38(); } else { Group39(); }
      }
    }
  }

  // ----- where the rounds leave the words

  /** The word to which round r writes word p of lane (x, y): read off the chi lines of that round. */
  function Written(r: nat, x: nat, y: nat, p: nat): nat
    requires r < 4 && x < 5 && y < 5 && p < 2
  {
    Groups(r, 2 * y + p).Out(x)
  }

  /**
   Every round writes each word where the theta lines of the next round look for it, and the last one where the state
   has it.
   */
  lemma RoundsMeet(r: nat, x: nat, y: nat, p: nat)
    requires r < 4 && x < 5 && y < 5 && p < 2
    ensures Written(r, x, y, p) == if r < 3 then Place(r + 1, x, y, p) else Half(x, y, p)
  {
    hide Columns, Groups, GroupOf, Offset, SourceX, SourceHalf, WordOffset;
    LinesFit(r, x, y, p);
    if r == 3 {
      FirstPlace(x, y, p);
      SamePlace(x, y, p);
    }
  }

  /** Round 0 finds the words in their natural places. */
  lemma FirstPlace(x: nat, y: nat, p: nat)
    requires x < 5 && y < 5 && p < 2
    ensures Place(0, x, y, p) == Half(x, y, p)
  {
    var c := 2 * x + p;
    FirstColumn(c);
    hide Columns0;
  }

  lemma FirstColumn(c: nat)
    requires c < 10
    ensures Columns0(c) == Column(c, 10 + c, 20 + c, 30 + c, 40 + c)
  {
  }

  lemma SamePlace(x: nat, y: nat, p: nat)
    requires x < 5 && y < 5 && p < 2
    ensures Place(4, x, y, p) == Place(0, x, y, p)
  {
    hide Columns0;
  }
}
