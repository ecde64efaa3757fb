/**
 The unrolled rounds of fips202/keccakf1600.c as data, word for word: which words the theta lines of a round
 add up, and, for each group of five chi lines, the words, D words and rotation counts of Ba .. Bu and the
 words that receive the results.
 */
module KeccakTable {

  // `stateAsHalfLanes[...]`
  const Aba0: nat := 0  const Aba1: nat := 1
  const Abe0: nat := 2  const Abe1: nat := 3
  const Abi0: nat := 4  const Abi1: nat := 5
  const Abo0: nat := 6  const Abo1: nat := 7
  const Abu0: nat := 8  const Abu1: nat := 9
  const Aga0: nat := 10  const Aga1: nat := 11
  const Age0: nat := 12  const Age1: nat := 13
  const Agi0: nat := 14  const Agi1: nat := 15
  const Ago0: nat := 16  const Ago1: nat := 17
  const Agu0: nat := 18  const Agu1: nat := 19
  const Aka0: nat := 20  const Aka1: nat := 21
  const Ake0: nat := 22  const Ake1: nat := 23
  const Aki0: nat := 24  const Aki1: nat := 25
  const Ako0: nat := 26  const Ako1: nat := 27
  const Aku0: nat := 28  const Aku1: nat := 29
  const Ama0: nat := 30  const Ama1: nat := 31
  const Ame0: nat := 32  const Ame1: nat := 33
  const Ami0: nat := 34  const Ami1: nat := 35
  const Amo0: nat := 36  const Amo1: nat := 37
  const Amu0: nat := 38  const Amu1: nat := 39
  const Asa0: nat := 40  const Asa1: nat := 41
  const Ase0: nat := 42  const Ase1: nat := 43
  const Asi0: nat := 44  const Asi1: nat := 45
  const Aso0: nat := 46  const Aso1: nat := 47
  const Asu0: nat := 48  const Asu1: nat := 49

  // The D words, in the order in which a round passes them on.
  const Da0: nat := 0  const Da1: nat := 1
  const De0: nat := 2  const De1: nat := 3
  const Di0: nat := 4  const Di1: nat := 5
  const Do0: nat := 6  const Do1: nat := 7
  const Du0: nat := 8  const Du1: nat := 9

  /** `ROL32((word ^ D), rot)`. */
  datatype Term = Term(word: nat, d: nat, rot: nat)

  /** The terms of Ba .. Bu, and the words assigned from them. */
  datatype Group = Group(a: Term, e: Term, i: Term, o: Term, u: Term, wa: nat, we: nat, wi: nat, wo: nat, wu: nat) {
    function B(x: nat): Term
      requires x < 5
    {
      if x == 0 then a else if x == 1 then e else if x == 2 then i else if x == 3 then o else u
    }

    function Out(x: nat): nat
      requires x < 5
    {
      if x == 0 then wa else if x == 1 then we else if x == 2 then wi else if x == 3 then wo else wu
    }
  }

  /** Five words that are added up. */
  datatype Column = Column(b: nat, g: nat, k: nat, m: nat, s: nat) {
    function At(y: nat): nat
      requires y < 5
    {
      if y == 0 then b else if y == 1 then g else if y == 2 then k else if y == 3 then m else s
    }
  }

  /** The words of each column, theta lines of `KeccakRound0`; entry 2 * x + p is word p of column x. */
  function Columns0(c: nat): Column
    requires c < 10
  {
    if c == 0 then Column(Aba0, Aga0, Aka0, Ama0, Asa0)
    else if c == 1 then Column(Aba1, Aga1, Aka1, Ama1, Asa1)
    else if c == 2 then Column(Abe0, Age0, Ake0, Ame0, Ase0)
    else if c == 3 then Column(Abe1, Age1, Ake1, Ame1, Ase1)
    else if c == 4 then Column(Abi0, Agi0, Aki0, Ami0, Asi0)
    else if c == 5 then Column(Abi1, Agi1, Aki1, Ami1, Asi1)
    else if c == 6 then Column(Abo0, Ago0, Ako0, Amo0, Aso0)
    else if c == 7 then Column(Abo1, Ago1, Ako1, Amo1, Aso1)
    else if c == 8 then Column(Abu0, Agu0, Aku0, Amu0, Asu0)
    else Column(Abu1, Agu1, Aku1, Amu1, Asu1)
  }

  /** The chi groups of `KeccakRound0`. */
  function Groups0(g: nat): Group
    requires g < 10
  {
    if g == 0 then
      Group(Term(Aba0, Da0, 0), Term(Age0, De0, 22), Term(Aki1, Di1, 22), Term(Amo1, Do1, 11), Term(Asu0, Du0, 7),
            Aba0, Age0, Aki1, Amo1, Asu0)
    else if g == 1 then
      Group(Term(Aba1, Da1, 0), Term(Age1, De1, 22), Term(Aki0, Di0, 21), Term(Amo0, Do0, 10), Term(Asu1, Du1, 7),
            Aba1, Age1, Aki0, Amo0, Asu1)
    else if g == 2 then
      Group(Term(Abo0, Do0, 14), Term(Agu0, Du0, 10), Term(Aka1, Da1, 2), Term(Ame1, De1, 23), Term(Asi1, Di1, 31),
            Aka1, Ame1, Asi1, Abo0, Agu0)
    else if g == 3 then
      Group(Term(Abo1, Do1, 14), Term(Agu1, Du1, 10), Term(Aka0, Da0, 1), Term(Ame0, De0, 22), Term(Asi0, Di0, 30),
            Aka0, Ame0, Asi0, Abo1, Agu1)
    else if g == 4 then
      Group(Term(Abe1, De1, 1), Term(Agi0, Di0, 3), Term(Ako1, Do1, 13), Term(Amu0, Du0, 4), Term(Asa0, Da0, 9),
            Asa0, Abe1, Agi0, Ako1, Amu0)
    else if g == 5 then
      Group(Term(Abe0, De0, 0), Term(Agi1, Di1, 3), Term(Ako0, Do0, 12), Term(Amu1, Du1, 4), Term(Asa1, Da1, 9),
            Asa1, Abe0, Agi1, Ako0, Amu1)
    else if g == 6 then
      Group(Term(Abu1, Du1, 14), Term(Aga0, Da0, 18), Term(Ake0, De0, 5), Term(Ami1, Di1, 8), Term(Aso0, Do0, 28),
            Aga0, Ake0, Ami1, Aso0, Abu1)
    else if g == 7 then
      Group(Term(Abu0, Du0, 13), Term(Aga1, Da1, 18), Term(Ake1, De1, 5), Term(Ami0, Di0, 7), Term(Aso1, Do1, 28),
            Aga1, Ake1, Ami0, Aso1, Abu0)
    else if g == 8 then
      Group(Term(Abi0, Di0, 31), Term(Ago1, Do1, 28), Term(Aku1, Du1, 20), Term(Ama1, Da1, 21), Term(Ase0, De0, 1),
            Ama1, Ase0, Abi0, Ago1, Aku1)
    else
      Group(Term(Abi1, Di1, 31), Term(Ago0, Do0, 27), Term(Aku0, Du0, 19), Term(Ama0, Da0, 20), Term(Ase1, De1, 1),
            Ama0, Ase1, Abi1, Ago0, Aku0)
  }

  /** The words of each column, theta lines of `KeccakRound1`; entry 2 * x + p is word p of column x. */
  function Columns1(c: nat): Column
    requires c < 10
  {
    if c == 0 then Column(Aba0, Aka1, Asa0, Aga0, Ama1)
    else if c == 1 then Column(Aba1, Aka0, Asa1, Aga1, Ama0)
    else if c == 2 then Column(Age0, Ame1, Abe1, Ake0, Ase0)
    else if c == 3 then Column(Age1, Ame0, Abe0, Ake1, Ase1)
    else if c == 4 then Column(Aki1, Asi1, Agi0, Ami1, Abi0)
    else if c == 5 then Column(Aki0, Asi0, Agi1, Ami0, Abi1)
    else if c == 6 then Column(Amo1, Abo0, Ako1, Aso0, Ago1)
    else if c == 7 then Column(Amo0, Abo1, Ako0, Aso1, Ago0)
    else if c == 8 then Column(Asu0, Agu0, Amu0, Abu1, Aku1)
    else Column(Asu1, Agu1, Amu1, Abu0, Aku0)
  }

  /** The chi groups of `KeccakRound1`. */
  function Groups1(g: nat): Group
    requires g < 10
  {
    if g == 0 then
      Group(Term(Aba0, Da0, 0), Term(Ame1, De0, 22), Term(Agi1, Di1, 22), Term(Aso1, Do1, 11), Term(Aku1, Du0, 7),
            Aba0, Ame1, Agi1, Aso1, Aku1)
    else if g == 1 then
      Group(Term(Aba1, Da1, 0), Term(Ame0, De1, 22), Term(Agi0, Di0, 21), Term(Aso0, Do0, 10), Term(Aku0, Du1, 7),
            Aba1, Ame0, Agi0, Aso0, Aku0)
    else if g == 2 then
      Group(Term(Amo1, Do0, 14), Term(Agu0, Du0, 10), Term(Asa1, Da1, 2), Term(Ake1, De1, 23), Term(Abi1, Di1, 31),
            Asa1, Ake1, Abi1, Amo1, Agu0)
    else if g == 3 then
      Group(Term(Amo0, Do1, 14), Term(Agu1, Du1, 10), Term(Asa0, Da0, 1), Term(Ake0, De0, 22), Term(Abi0, Di0, 30),
            Asa0, Ake0, Abi0, Amo0, Agu1)
    else if g == 4 then
      Group(Term(Age1, De1, 1), Term(Asi1, Di0, 3), Term(Ako0, Do1, 13), Term(Abu1, Du0, 4), Term(Ama1, Da0, 9),
            Ama1, Age1, Asi1, Ako0, Abu1)
    else if g == 5 then
      Group(Term(Age0, De0, 0), Term(Asi0, Di1, 3), Term(Ako1, Do0, 12), Term(Abu0, Du1, 4), Term(Ama0, Da1, 9),
            Ama0, Age0, Asi0, Ako1, Abu0)
    else if g == 6 then
      Group(Term(Asu1, Du1, 14), Term(Aka1, Da0, 18), Term(Abe1, De0, 5), Term(Ami0, Di1, 8), Term(Ago1, Do0, 28),
            Aka1, Abe1, Ami0, Ago1, Asu1)
    else if g == 7 then
      Group(Term(Asu0, Du0, 13), Term(Aka0, Da1, 18), Term(Abe0, De1, 5), Term(Ami1, Di0, 7), Term(Ago0, Do1, 28),
            Aka0, Abe0, Ami1, Ago0, Asu0)
    else if g == 8 then
      Group(Term(Aki1, Di0, 31), Term(Abo1, Do1, 28), Term(Amu1, Du1, 20), Term(Aga1, Da1, 21), Term(Ase0, De0, 1),
            Aga1, Ase0, Aki1, Abo1, Amu1)
    else
      Group(Term(Aki0, Di1, 31), Term(Abo0, Do0, 27), Term(Amu0, Du0, 19), Term(Aga0, Da0, 20), Term(Ase1, De1, 1),
            Aga0, Ase1, Aki0, Abo0, Amu0)
  }

  /** The words of each column, theta lines of `KeccakRound2`; entry 2 * x + p is word p of column x. */
  function Columns2(c: nat): Column
    requires c < 10
  {
    if c == 0 then Column(Aba0, Asa1, Ama1, Aka1, Aga1)
    else if c == 1 then Column(Aba1, Asa0, Ama0, Aka0, Aga0)
    else if c == 2 then Column(Ame1, Ake1, Age1, Abe1, Ase0)
    else if c == 3 then Column(Ame0, Ake0, Age0, Abe0, Ase1)
    else if c == 4 then Column(Agi1, Abi1, Asi1, Ami0, Aki1)
    else if c == 5 then Column(Agi0, Abi0, Asi0, Ami1, Aki0)
    else if c == 6 then Column(Aso1, Amo1, Ako0, Ago1, Abo1)
    else if c == 7 then Column(Aso0, Amo0, Ako1, Ago0, Abo0)
    else if c == 8 then Column(Aku1, Agu0, Abu1, Asu1, Amu1)
    else Column(Aku0, Agu1, Abu0, Asu0, Amu0)
  }

  /** The chi groups of `KeccakRound2`. */
  function Groups2(g: nat): Group
    requires g < 10
  {
    if g == 0 then
      Group(Term(Aba0, Da0, 0), Term(Ake1, De0, 22), Term(Asi0, Di1, 22), Term(Ago0, Do1, 11), Term(Amu1, Du0, 7),
            Aba0, Ake1, Asi0, Ago0, Amu1)
    else if g == 1 then
      Group(Term(Aba1, Da1, 0), Term(Ake0, De1, 22), Term(Asi1, Di0, 21), Term(Ago1, Do0, 10), Term(Amu0, Du1, 7),
            Aba1, Ake0, Asi1, Ago1, Amu0)
    else if g == 2 then
      Group(Term(Aso1, Do0, 14), Term(Agu0, Du0, 10), Term(Ama0, Da1, 2), Term(Abe0, De1, 23), Term(Aki0, Di1, 31),
            Ama0, Abe0, Aki0, Aso1, Agu0)
    else if g == 3 then
      Group(Term(Aso0, Do1, 14), Term(Agu1, Du1, 10), Term(Ama1, Da0, 1), Term(Abe1, De0, 22), Term(Aki1, Di0, 30),
            Ama1, Abe1, Aki1, Aso0, Agu1)
    else if g == 4 then
      Group(Term(Ame0, De1, 1), Term(Abi1, Di0, 3), Term(Ako1, Do1, 13), Term(Asu1, Du0, 4), Term(Aga1, Da0, 9),
            Aga1, Ame0, Abi1, Ako1, Asu1)
    else if g == 5 then
      Group(Term(Ame1, De0, 0), Term(Abi0, Di1, 3), Term(Ako0, Do0, 12), Term(Asu0, Du1, 4), Term(Aga0, Da1, 9),
            Aga0, Ame1, Abi0, Ako0, Asu0)
    else if g == 6 then
      Group(Term(Aku0, Du1, 14), Term(Asa1, Da0, 18), Term(Age1, De0, 5), Term(Ami1, Di1, 8), Term(Abo1, Do0, 28),
            Asa1, Age1, Ami1, Abo1, Aku0)
    else if g == 7 then
      Group(Term(Aku1, Du0, 13), Term(Asa0, Da1, 18), Term(Age0, De1, 5), Term(Ami0, Di0, 7), Term(Abo0, Do1, 28),
            Asa0, Age0, Ami0, Abo0, Aku1)
    else if g == 8 then
      Group(Term(Agi1, Di0, 31), Term(Amo0, Do1, 28), Term(Abu0, Du1, 20), Term(Aka0, Da1, 21), Term(Ase0, De0, 1),
            Aka0, Ase0, Agi1, Amo0, Abu0)
    else
      Group(Term(Agi0, Di1, 31), Term(Amo1, Do0, 27), Term(Abu1, Du0, 19), Term(Aka1, Da0, 20), Term(Ase1, De1, 1),
            Aka1, Ase1, Agi0, Amo1, Abu1)
  }

  /** The words of each column, theta lines of `KeccakRound3`; entry 2 * x + p is word p of column x. */
  function Columns3(c: nat): Column
    requires c < 10
  {
    if c == 0 then Column(Aba0, Ama0, Aga1, Asa1, Aka0)
    else if c == 1 then Column(Aba1, Ama1, Aga0, Asa0, Aka1)
    else if c == 2 then Column(Ake1, Abe0, Ame0, Age1, Ase0)
    else if c == 3 then Column(Ake0, Abe1, Ame1, Age0, Ase1)
    else if c == 4 then Column(Asi0, Aki0, Abi1, Ami1, Agi1)
    else if c == 5 then Column(Asi1, Aki1, Abi0, Ami0, Agi0)
    else if c == 6 then Column(Ago0, Aso1, Ako1, Abo1, Amo0)
    else if c == 7 then Column(Ago1, Aso0, Ako0, Abo0, Amo1)
    else if c == 8 then Column(Amu1, Agu0, Asu1, Aku0, Abu0)
    else Column(Amu0, Agu1, Asu0, Aku1, Abu1)
  }

  /** The chi groups of `KeccakRound3`. */
  function Groups3(g: nat): Group
    requires g < 10
  {
    if g == 0 then
      Group(Term(Aba0, Da0, 0), Term(Abe0, De0, 22), Term(Abi0, Di1, 22), Term(Abo0, Do1, 11), Term(Abu0, Du0, 7),
            Aba0, Abe0, Abi0, Abo0, Abu0)
    else if g == 1 then
      Group(Term(Aba1, Da1, 0), Term(Abe1, De1, 22), Term(Abi1, Di0, 21), Term(Abo1, Do0, 10), Term(Abu1, Du1, 7),
            Aba1, Abe1, Abi1, Abo1, Abu1)
    else if g == 2 then
      Group(Term(Ago0, Do0, 14), Term(Agu0, Du0, 10), Term(Aga0, Da1, 2), Term(Age0, De1, 23), Term(Agi0, Di1, 31),
            Aga0, Age0, Agi0, Ago0, Agu0)
    else if g == 3 then
      Group(Term(Ago1, Do1, 14), Term(Agu1, Du1, 10), Term(Aga1, Da0, 1), Term(Age1, De0, 22), Term(Agi1, Di0, 30),
            Aga1, Age1, Agi1, Ago1, Agu1)
    else if g == 4 then
      Group(Term(Ake0, De1, 1), Term(Aki0, Di0, 3), Term(Ako0, Do1, 13), Term(Aku0, Du0, 4), Term(Aka0, Da0, 9),
            Aka0, Ake0, Aki0, Ako0, Aku0)
    else if g == 5 then
      Group(Term(Ake1, De0, 0), Term(Aki1, Di1, 3), Term(Ako1, Do0, 12), Term(Aku1, Du1, 4), Term(Aka1, Da1, 9),
            Aka1, Ake1, Aki1, Ako1, Aku1)
    else if g == 6 then
      Group(Term(Amu0, Du1, 14), Term(Ama0, Da0, 18), Term(Ame0, De0, 5), Term(Ami0, Di1, 8), Term(Amo0, Do0, 28),
            Ama0, Ame0, Ami0, Amo0, Amu0)
    else if g == 7 then
      Group(Term(Amu1, Du0, 13), Term(Ama1, Da1, 18), Term(Ame1, De1, 5), Term(Ami1, Di0, 7), Term(Amo1, Do1, 28),
            Ama1, Ame1, Ami1, Amo1, Amu1)
    else if g == 8 then
      Group(Term(Asi0, Di0, 31), Term(Aso0, Do1, 28), Term(Asu0, Du1, 20), Term(Asa0, Da1, 21), Term(Ase0, De0, 1),
            Asa0, Ase0, Asi0, Aso0, Asu0)
    else
      Group(Term(Asi1, Di1, 31), Term(Aso1, Do0, 27), Term(Asu1, Du0, 19), Term(Asa1, Da0, 20), Term(Ase1, De1, 1),
            Asa1, Ase1, Asi1, Aso1, Asu1)
  }

  /** Round 4 is round 0 of the next pass. */
  function Columns(r: nat, c: nat): Column
    requires r <= 4 && c < 10
  {
    if r == 1 then Columns1(c) else if r == 2 then Columns2(c) else if r == 3 then Columns3(c) else Columns0(c)
  }

  function Groups(r: nat, g: nat): Group
    requires r < 4 && g < 10
  {
    if r == 0 then Groups0(g) else if r == 1 then Groups1(g) else if r == 2 then Groups2(g) else Groups3(g)
  }

  /** `KeccakF1600RoundConstants_int2`, with its end mark. */
  function RoundConstant(i: nat): nat
    requires i < 49
  {
    if i < 8 then [0x00000001, 0x00000000, 0x00000000, 0x00000089, 0x00000000, 0x8000008b, 0x00000000, 0x80008080][i]
    else if i < 16 then [0x00000001, 0x0000008b, 0x00000001, 0x00008000, 0x00000001, 0x80008088, 0x00000001,
        0x80000082][i - 8]
    else if i < 24 then [0x00000000, 0x0000000b, 0x00000000, 0x0000000a, 0x00000001, 0x00008082, 0x00000000,
        0x00008003][i - 16]
    else if i < 32 then [0x00000001, 0x0000808b, 0x00000001, 0x8000000b, 0x00000001, 0x8000008a, 0x00000001,
        0x80000081][i - 24]
    else if i < 40 then [0x00000000, 0x80000081, 0x00000000, 0x80000008, 0x00000000, 0x00000083, 0x00000000,
        0x80008003][i - 32]
    else if i < 48 then [0x00000001, 0x80008088, 0x00000000, 0x80000088, 0x00000001, 0x00008000, 0x00000000,
        0x80008082][i - 40]
    else 0xff
  }
}
