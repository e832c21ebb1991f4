/** Boolean lookup tables compiled from C expressions: the macros and helpers of
    investigation/evidence/AD04-util-lut2-portability-005/derived-lut.h. */
module UtilLut {

  /** The expressions the macros accept, over three sources. */
  datatype Expr =
    | A
    | B
    | C
    | Not(e: Expr)
    | And(l: Expr, r: Expr)
    | Or(l: Expr, r: Expr)
    | Xor(l: Expr, r: Expr)

  datatype Assignment = Assignment(a: bool, b: bool, c: bool)

  /** The boolean meaning. */
  function Eval(e: Expr, s: Assignment): bool {
    match e
    case A => s.a
    case B => s.b
    case C => s.c
    case Not(x) => !Eval(x, s)
    case And(x, y) => Eval(x, s) && Eval(y, s)
    case Or(x, y) => Eval(x, s) || Eval(y, s)
    case Xor(x, y) => Eval(x, s) != Eval(y, s)
  }

  type Index = i: int | 0 <= i < 8

  /** The assignment that selects a bit of a table. */
  function AssignmentOf(i: Index): Assignment {
    Assignment(i % 2 == 1, i / 2 % 2 == 1, i / 4 == 1)
  }

  function IndexOf(s: Assignment): (i: Index)
    ensures AssignmentOf(i) == s
  {
    (if s.a then 1 else 0) + (if s.b then 2 else 0) + (if s.c then 4 else 0)
  }

  // C's bitwise operators at `int` width.

  function Complement(x: bv32): bv32 { !x }
  function Conjunction(x: bv32, y: bv32): bv32 { x & y }
  function Disjunction(x: bv32, y: bv32): bv32 { x | y }
  function Difference(x: bv32, y: bv32): bv32 { x ^ y }

  predicate OneOfEight(m: bv32) {
    m == 1 || m == 2 || m == 4 || m == 8 || m == 16 || m == 32 || m == 64 || m == 128
  }

  function Mask(i: Index): (m: bv32)
    ensures OneOfEight(m)
  {
    match i
    case 0 => 1
    case 1 => 2
    case 2 => 4
    case 3 => 8
    case 4 => 16
    case 5 => 32
    case 6 => 64
    case _ => 128
  }

  predicate Tested(word: bv32, mask: bv32) {
    word & mask != 0
  }

  predicate Bit(word: bv32, i: Index) {
    Tested(word, Mask(i))
  }

  // ---- Building tables ----

  /** The expression at C's `int` width, after the promotion of the three `uint8_t` masks. */
  function Word(e: Expr): bv32 {
    match e
    case A => 0xAA
    case B => 0xCC
    case C => 0xF0
    case Not(x) => Complement(Word(x))
    case And(x, y) => Conjunction(Word(x), Word(y))
    case Or(x, y) => Disjunction(Word(x), Word(y))
    case Xor(x, y) => Difference(Word(x), Word(y))
  }

  /** Conversion to `uint8_t`; a table is a word that survives it. */
  function Truncated(word: bv32): (t: bv32)
    ensures IsTable(t)
  {
    word & 0xFF
  }

  predicate IsTable(t: bv32) {
    t & 0xFF == t
  }

  function Lut3(e: Expr): (t: bv32)
    ensures IsTable(t)
  {
    Truncated(Word(e))
  }

  function Lut2(e: Expr): (t: bv32)
    ensures IsTable(t)
  {
    Truncated(Lut3(And(e, Not(C))))
  }

  lemma TruncatedTested(word: bv32, m: bv32)
    requires OneOfEight(m)
    ensures Tested(Truncated(word), m) == Tested(word, m)
  {
  }

  lemma NotTested(x: bv32, m: bv32)
    requires OneOfEight(m)
    ensures Tested(!x, m) == !Tested(x, m)
  {
  }

  lemma AndTested(x: bv32, y: bv32, m: bv32)
    requires OneOfEight(m)
    ensures Tested(x & y, m) == (Tested(x, m) && Tested(y, m))
  {
  }

  lemma OrWords(x: bv32, y: bv32)
    ensures x | y == !(!x & !y)
  {
  }

  lemma XorWords(x: bv32, y: bv32)
    ensures x ^ y == (x & !y) | (!x & y)
  {
  }

  lemma ComplementTested(x: bv32, m: bv32)
    requires OneOfEight(m)
    ensures Tested(Complement(x), m) == !Tested(x, m)
  {
    hide Tested, OneOfEight;
    NotTested(x, m);
  }

  lemma ConjunctionTested(x: bv32, y: bv32, m: bv32)
    requires OneOfEight(m)
    ensures Tested(Conjunction(x, y), m) == (Tested(x, m) && Tested(y, m))
  {
    hide Tested, OneOfEight;
    AndTested(x, y, m);
  }

  lemma DisjunctionMeans(x: bv32, y: bv32)
    ensures Disjunction(x, y) == Complement(Conjunction(Complement(x), Complement(y)))
  {
    OrWords(x, y);
  }

  lemma DisjunctionTested(x: bv32, y: bv32, m: bv32)
    requires OneOfEight(m)
    ensures Tested(Disjunction(x, y), m) == (Tested(x, m) || Tested(y, m))
  {
    hide Tested, OneOfEight, Complement, Conjunction, Disjunction;
    DisjunctionMeans(x, y);
    ComplementTested(x, m);
    ComplementTested(y, m);
    ConjunctionTested(Complement(x), Complement(y), m);
    ComplementTested(Conjunction(Complement(x), Complement(y)), m);
  }

  lemma DifferenceMeans(x: bv32, y: bv32)
    ensures Difference(x, y) == Disjunction(Conjunction(x, Complement(y)), Conjunction(Complement(x), y))
  {
    XorWords(x, y);
  }

  lemma DifferenceTested(x: bv32, y: bv32, m: bv32)
    requires OneOfEight(m)
    ensures Tested(Difference(x, y), m) == (Tested(x, m) != Tested(y, m))
  {
    hide Tested, OneOfEight, Complement, Conjunction, Disjunction, Difference;
    DifferenceMeans(x, y);
    ComplementTested(x, m);
    ComplementTested(y, m);
    ConjunctionTested(x, Complement(y), m);
    ConjunctionTested(Complement(x), y, m);
    DisjunctionTested(Conjunction(x, Complement(y)), Conjunction(Complement(x), y), m);
  }

  lemma SourceBits(i: Index)
    ensures Bit(0xAA, i) == AssignmentOf(i).a
    ensures Bit(0xCC, i) == AssignmentOf(i).b
    ensures Bit(0xF0, i) == AssignmentOf(i).c
  {
  }

  lemma {:induction false} WordBits(e: Expr, i: Index)
    ensures Bit(Word(e), i) == Eval(e, AssignmentOf(i))
  {
    hide Tested, Complement, Conjunction, Disjunction, Difference, AssignmentOf, Mask, OneOfEight;
    match e
    case Not(x) =>
      WordBits(x, i);
      ComplementTested(Word(x), Mask(i));
    case And(x, y) =>
      WordBits(x, i);
      WordBits(y, i);
      ConjunctionTested(Word(x), Word(y), Mask(i));
    case Or(x, y) =>
      WordBits(x, i);
      WordBits(y, i);
      DisjunctionTested(Word(x), Word(y), Mask(i));
    case Xor(x, y) =>
      WordBits(x, i);
      WordBits(y, i);
      DifferenceTested(Word(x), Word(y), Mask(i));
    case _ =>
      SourceBits(i);
  }

  /** Compilation is correct: bit `i` of the table is the expression at assignment `i`. */
  lemma Lut3Bits(e: Expr, i: Index)
    ensures Bit(Lut3(e), i) == Eval(e, AssignmentOf(i))
  {
    hide Tested, AssignmentOf, Truncated, Mask, OneOfEight, Word, Eval;
    WordBits(e, i);
    TruncatedTested(Word(e), Mask(i));
  }

  lemma RestrictedMeans(e: Expr, s: Assignment)
    ensures Eval(And(e, Not(C)), s) == (Eval(e, s) && !s.c)
  {
    assert Eval(Not(C), s) == !Eval(C, s);
  }

  /** A two-source table is the restriction to `c` false; its upper half is empty. */
  lemma Lut2Bits(e: Expr, i: Index)
    ensures Bit(Lut2(e), i) == (i < 4 && Eval(e, AssignmentOf(i)))
  {
    hide Tested, Truncated, Mask, OneOfEight, Lut3;
    var f := And(e, Not(C));
    Lut3Bits(f, i);
    TruncatedTested(Lut3(f), Mask(i));
    RestrictedMeans(e, AssignmentOf(i));
  }

  /** Tables are equal when all their bits are. */
  lemma TablesEqual(s: bv32, t: bv32)
    requires IsTable(s) && IsTable(t) && forall i: Index :: Bit(s, i) == Bit(t, i)
    ensures s == t
  {
    assert Bit(s, 0) == Bit(t, 0) && Bit(s, 1) == Bit(t, 1) && Bit(s, 2) == Bit(t, 2) && Bit(s, 3) == Bit(t, 3);
    assert Bit(s, 4) == Bit(t, 4) && Bit(s, 5) == Bit(t, 5) && Bit(s, 6) == Bit(t, 6) && Bit(s, 7) == Bit(t, 7);
  }

  ghost predicate SameMeaning(e: Expr, f: Expr) {
    forall s: Assignment :: Eval(e, s) == Eval(f, s)
  }

  lemma SameBits(e: Expr, f: Expr, i: Index)
    requires SameMeaning(e, f)
    ensures Bit(Lut3(e), i) == Bit(Lut3(f), i)
  {
    hide Bit, AssignmentOf, Lut3;
    Lut3Bits(e, i);
    Lut3Bits(f, i);
    assert Eval(e, AssignmentOf(i)) == Eval(f, AssignmentOf(i));
  }

  lemma SameTable(e: Expr, f: Expr, s: Assignment)
    requires Lut3(e) == Lut3(f)
    ensures Eval(e, s) == Eval(f, s)
  {
    hide Bit, AssignmentOf, Lut3;
    Lut3Bits(e, IndexOf(s));
    Lut3Bits(f, IndexOf(s));
  }

  /** Two expressions compile to one table exactly when they mean the same. */
  lemma Lut3Canonical(e: Expr, f: Expr)
    ensures Lut3(e) == Lut3(f) <==> SameMeaning(e, f)
  {
    hide Bit, Lut3, IsTable;
    if Lut3(e) == Lut3(f) {
      forall s: Assignment ensures Eval(e, s) == Eval(f, s) {
        SameTable(e, f, s);
      }
    }
    if SameMeaning(e, f) {
      forall i: Index ensures Bit(Lut3(e), i) == Bit(Lut3(f), i) {
        SameBits(e, f, i);
      }
      TablesEqual(Lut3(e), Lut3(f));
    }
  }

  // ---- Every table has an expression ----

  function Literal(source: Expr, sign: bool): Expr {
    if sign then source else Not(source)
  }

  function Minterm(i: Index): Expr {
    var s := AssignmentOf(i);
    And(And(Literal(A, s.a), Literal(B, s.b)), Literal(C, s.c))
  }

  /** The disjunction of the minterms of the bits set below `n`. */
  function SumOfMinterms(t: bv32, n: nat): Expr
    requires n <= 8
  {
    if n == 0 then And(A, Not(A))
    else if Bit(t, n - 1) then Or(SumOfMinterms(t, n - 1), Minterm(n - 1))
    else SumOfMinterms(t, n - 1)
  }

  lemma MintermMeans(i: Index, j: Index)
    ensures Eval(Minterm(i), AssignmentOf(j)) == (i == j)
  {
    var s, x := AssignmentOf(i), AssignmentOf(j);
    LiteralMeans(A, s.a, x);
    LiteralMeans(B, s.b, x);
    LiteralMeans(C, s.c, x);
    assert Eval(And(Literal(A, s.a), Literal(B, s.b)), x) == (x.a == s.a && x.b == s.b) by {
      hide Literal, AssignmentOf;
    }
    hide Literal;
    assert i == j <==> s == x;
  }

  lemma LiteralMeans(source: Expr, sign: bool, x: Assignment)
    ensures Eval(Literal(source, sign), x) == (Eval(source, x) == sign)
  {
  }

  lemma {:induction false} SumMeans(t: bv32, n: nat, j: Index)
    requires n <= 8
    ensures Eval(SumOfMinterms(t, n), AssignmentOf(j)) == (j < n && Bit(t, j))
  {
    hide Bit, AssignmentOf, Minterm;
    if n > 0 {
      SumMeans(t, n - 1, j);
      MintermMeans(n - 1, j);
    }
  }

  /** The tables are a sum-of-minterms form: reading a table back as the disjunction of its
      minterms and compiling that gives the table again. */
  lemma TableRoundTrip(t: bv32)
    requires IsTable(t)
    ensures Lut3(SumOfMinterms(t, 8)) == t
  {
    hide Bit, Lut3, IsTable, SumOfMinterms;
    forall i: Index ensures Bit(Lut3(SumOfMinterms(t, 8)), i) == Bit(t, i) {
      SumMeans(t, 8, i);
      Lut3Bits(SumOfMinterms(t, 8), i);
    }
    TablesEqual(Lut3(SumOfMinterms(t, 8)), t);
  }

  // ---- Operations on tables ----

  /** Source expressions put in the place of the sources. */
  function Substituted(e: Expr, a: Expr, b: Expr, c: Expr): Expr {
    match e
    case A => a
    case B => b
    case C => c
    case Not(x) => Not(Substituted(x, a, b, c))
    case And(x, y) => And(Substituted(x, a, b, c), Substituted(y, a, b, c))
    case Or(x, y) => Or(Substituted(x, a, b, c), Substituted(y, a, b, c))
    case Xor(x, y) => Xor(Substituted(x, a, b, c), Substituted(y, a, b, c))
  }

  lemma {:induction false} SubstitutedMeans(e: Expr, a: Expr, b: Expr, c: Expr, s: Assignment)
    ensures Eval(Substituted(e, a, b, c), s) == Eval(e, Assignment(Eval(a, s), Eval(b, s), Eval(c, s)))
  {
    match e
    case Not(x) => SubstitutedMeans(x, a, b, c, s);
    case And(x, y) =>
      SubstitutedMeans(x, a, b, c, s);
      SubstitutedMeans(y, a, b, c, s);
    case Or(x, y) =>
      SubstitutedMeans(x, a, b, c, s);
      SubstitutedMeans(y, a, b, c, s);
    case Xor(x, y) =>
      SubstitutedMeans(x, a, b, c, s);
      SubstitutedMeans(y, a, b, c, s);
    case _ =>
  }

  type Source = s: int | 0 <= s < 3

  function SourceNegated(e: Expr, s: Source): Expr {
    Substituted(e, if s == 0 then Not(A) else A, if s == 1 then Not(B) else B, if s == 2 then Not(C) else C)
  }

  /** The index of the assignment that differs in one source. */
  function Flipped(i: Index, s: Source): Index {
    var x := AssignmentOf(i);
    IndexOf(if s == 0 then x.(a := !x.a) else if s == 1 then x.(b := !x.b) else x.(c := !x.c))
  }

  /** `util_lut3_invert` and `util_lut2_invert` */
  function Invert3(l: bv32): bv32 { Difference(l, 0xFF) }
  function Invert2(l: bv32): bv32 { Difference(l, 0x0F) }

  /** `util_bit_swap`, by its effect. */
  function BitSwap(l: bv32, p: Index, q: Index): bv32 {
    if Bit(l, p) == Bit(l, q) then l else Difference(Difference(l, Mask(p)), Mask(q))
  }

  function SwapSources2(l: bv32): bv32 {
    BitSwap(l, 1, 2)
  }

  /** The pairs of sources for which `util_lut3_swap_sources` is defined. */
  predicate Swappable(p: nat, q: nat) {
    (p == 0 && q == 1) || (p == 0 && q == 2) || (p == 1 && q == 2)
  }

  function SwapSources3(l: bv32, p: nat, q: nat): bv32
    requires Swappable(p, q)
  {
    if p == 0 && q == 1 then BitSwap(BitSwap(l, 1, 2), 5, 6)
    else if p == 0 then BitSwap(BitSwap(l, 1, 4), 3, 6)
    else BitSwap(BitSwap(l, 2, 4), 3, 5)
  }

  function SourcesSwapped(e: Expr, p: nat, q: nat): Expr
    requires Swappable(p, q)
  {
    if p == 0 && q == 1 then Substituted(e, B, A, C)
    else if p == 0 then Substituted(e, C, B, A)
    else Substituted(e, A, C, B)
  }

  lemma MaskTested(i: Index, j: Index)
    ensures Tested(Mask(i), Mask(j)) == (i == j)
  {
  }

  lemma ConstantTested(i: Index)
    ensures Tested(0xFF, Mask(i)) && Tested(0x0F, Mask(i)) == (i < 4)
  {
  }

  lemma BitSwapBits(l: bv32, p: Index, q: Index, i: Index)
    ensures Bit(BitSwap(l, p, q), i) == Bit(l, if i == p then q else if i == q then p else i)
  {
    hide Tested, Mask, OneOfEight, Difference;
    DifferenceTested(l, Mask(p), Mask(i));
    DifferenceTested(Difference(l, Mask(p)), Mask(q), Mask(i));
    MaskTested(p, i);
    MaskTested(q, i);
  }

  lemma StaysTable(l: bv32, m: bv32)
    requires IsTable(l) && (OneOfEight(m) || m == 0xFF || m == 0x0F)
    ensures IsTable(Difference(l, m))
  {
  }

  lemma BitSwapStays(l: bv32, p: Index, q: Index)
    requires IsTable(l)
    ensures IsTable(BitSwap(l, p, q))
  {
    hide IsTable, Difference, OneOfEight, Bit;
    StaysTable(l, Mask(p));
    StaysTable(Difference(l, Mask(p)), Mask(q));
  }

  /** Inverting a table negates the expression. */
  lemma Invert3Negates(e: Expr)
    ensures Invert3(Lut3(e)) == Lut3(Not(e))
  {
    hide Tested, Difference, IsTable, Lut3, OneOfEight, Mask;
    StaysTable(Lut3(e), 0xFF);
    forall i: Index ensures Bit(Invert3(Lut3(e)), i) == Bit(Lut3(Not(e)), i) {
      Lut3Bits(e, i);
      Lut3Bits(Not(e), i);
      DifferenceTested(Lut3(e), 0xFF, Mask(i));
      ConstantTested(i);
    }
    TablesEqual(Invert3(Lut3(e)), Lut3(Not(e)));
  }

  lemma Invert2Negates(e: Expr)
    ensures Invert2(Lut2(e)) == Lut2(Not(e))
  {
    hide Tested, Difference, IsTable, Lut2, OneOfEight, Mask;
    StaysTable(Lut2(e), 0x0F);
    forall i: Index ensures Bit(Invert2(Lut2(e)), i) == Bit(Lut2(Not(e)), i) {
      Lut2Bits(e, i);
      Lut2Bits(Not(e), i);
      DifferenceTested(Lut2(e), 0x0F, Mask(i));
      ConstantTested(i);
    }
    TablesEqual(Invert2(Lut2(e)), Lut2(Not(e)));
  }

  /** Where a bit of the table comes from when two bit swaps follow each other. */
  function SwappedIndex(i: Index, p: Index, q: Index): Index {
    if i == p then q else if i == q then p else i
  }

  lemma TwoSwapsBits(l: bv32, x: Index, y: Index, v: Index, w: Index, i: Index)
    ensures Bit(BitSwap(BitSwap(l, x, y), v, w), i) == Bit(l, SwappedIndex(SwappedIndex(i, v, w), x, y))
  {
    hide Bit, BitSwap;
    BitSwapBits(BitSwap(l, x, y), v, w, i);
    BitSwapBits(l, x, y, SwappedIndex(i, v, w));
  }

  lemma SwappedAssignment(i: Index)
    ensures var (s, ab) := (AssignmentOf(i), AssignmentOf(SwappedIndex(SwappedIndex(i, 5, 6), 1, 2)));
      ab == Assignment(s.b, s.a, s.c)
    ensures var (s, ac) := (AssignmentOf(i), AssignmentOf(SwappedIndex(SwappedIndex(i, 3, 6), 1, 4)));
      ac == Assignment(s.c, s.b, s.a)
    ensures var (s, bc) := (AssignmentOf(i), AssignmentOf(SwappedIndex(SwappedIndex(i, 3, 5), 2, 4)));
      bc == Assignment(s.a, s.c, s.b)
  {
  }

  lemma Swapped3Bits(e: Expr, p: nat, q: nat, i: Index)
    requires Swappable(p, q)
    ensures Bit(SwapSources3(Lut3(e), p, q), i) == Bit(Lut3(SourcesSwapped(e, p, q)), i)
  {
    hide Bit, BitSwap, Lut3, AssignmentOf, SwappedIndex;
    var l, s := Lut3(e), AssignmentOf(i);
    SwappedAssignment(i);
    Lut3Bits(SourcesSwapped(e, p, q), i);
    if p == 0 && q == 1 {
      TwoSwapsBits(l, 1, 2, 5, 6, i);
      Lut3Bits(e, SwappedIndex(SwappedIndex(i, 5, 6), 1, 2));
      SubstitutedMeans(e, B, A, C, s);
    } else if p == 0 {
      TwoSwapsBits(l, 1, 4, 3, 6, i);
      Lut3Bits(e, SwappedIndex(SwappedIndex(i, 3, 6), 1, 4));
      SubstitutedMeans(e, C, B, A, s);
    } else {
      TwoSwapsBits(l, 2, 4, 3, 5, i);
      Lut3Bits(e, SwappedIndex(SwappedIndex(i, 3, 5), 2, 4));
      SubstitutedMeans(e, A, C, B, s);
    }
  }

  /** Swapping sources in the table swaps them in the expression. */
  lemma SwapSources3Swaps(e: Expr, p: nat, q: nat)
    requires Swappable(p, q)
    ensures SwapSources3(Lut3(e), p, q) == Lut3(SourcesSwapped(e, p, q))
  {
    hide Bit, BitSwap, Lut3, IsTable;
    var l := Lut3(e);
    var (x, y, v, w) := if p == 0 && q == 1 then (1, 2, 5, 6) else if p == 0 then (1, 4, 3, 6) else (2, 4, 3, 5);
    BitSwapStays(l, x, y);
    BitSwapStays(BitSwap(l, x, y), v, w);
    forall i: Index ensures Bit(SwapSources3(l, p, q), i) == Bit(Lut3(SourcesSwapped(e, p, q)), i) {
      Swapped3Bits(e, p, q, i);
    }
    TablesEqual(SwapSources3(l, p, q), Lut3(SourcesSwapped(e, p, q)));
  }

  lemma SwapSources2Swaps(e: Expr)
    ensures SwapSources2(Lut2(e)) == Lut2(Substituted(e, B, A, C))
  {
    hide Bit, BitSwap, Lut2, IsTable;
    var l, f := Lut2(e), Substituted(e, B, A, C);
    BitSwapStays(l, 1, 2);
    forall i: Index ensures Bit(SwapSources2(l), i) == Bit(Lut2(f), i) {
      BitSwapBits(l, 1, 2, i);
      Lut2Bits(e, if i == 1 then 2 else if i == 2 then 1 else i);
      Lut2Bits(f, i);
      SubstitutedMeans(e, B, A, C, AssignmentOf(i));
    }
    TablesEqual(SwapSources2(l), Lut2(f));
  }

  // ---- Inverting a source ----

  function SourceMask(s: Source): bv32 {
    Lut3(if s == 0 then A else if s == 1 then B else C)
  }

  /** `__builtin_ctz` on a nonempty mask. */
  function TrailingZeros(mask: bv32): (n: bv32)
    requires mask == 0xAA || mask == 0xCC || mask == 0xF0
    ensures n < 32
  {
    if mask & 1 != 0 then 0 else if mask & 2 != 0 then 1 else if mask & 4 != 0 then 2 else if mask & 8 != 0 then 3 else 4
  }

  lemma SourceMasks(s: Source)
    ensures SourceMask(s) == (if s == 0 then 0xAA else if s == 1 then 0xCC else 0xF0)
  {
    assert Lut3(A) == 0xAA && Lut3(B) == 0xCC && Lut3(C) == 0xF0;
  }

  /** The bits under a mask and the bits outside it trade places. */
  function Halves(l: bv32, mask: bv32, shift: bv32): (t: bv32)
    requires shift < 32
    ensures IsTable(t)
  {
    var trueBits := l & mask;
    var falseBits := Truncated(l & !mask);
    Truncated((falseBits << shift) | (trueBits >> shift))
  }

  /** `util_lut3_invert_source` */
  function InvertSource3(l: bv32, s: Source): (t: bv32)
    ensures IsTable(t)
  {
    SourceMasks(s);
    Halves(l, SourceMask(s), TrailingZeros(SourceMask(s)))
  }

  function InvertSource2(l: bv32, s: Source): bv32 {
    InvertSource3(l, s) & 0x0F
  }

  lemma HalvesTradedA(l: bv32)
    ensures var t := (((l & !0xAA & 0xFF) << (1 as bv32)) | ((l & 0xAA) >> (1 as bv32))) & 0xFF;
      && Tested(t, 1) == Tested(l, 2) && Tested(t, 2) == Tested(l, 1)
      && Tested(t, 4) == Tested(l, 8) && Tested(t, 8) == Tested(l, 4)
      && Tested(t, 16) == Tested(l, 32) && Tested(t, 32) == Tested(l, 16)
      && Tested(t, 64) == Tested(l, 128) && Tested(t, 128) == Tested(l, 64)
  {
  }

  lemma HalvesTestedA(l: bv32)
    ensures var t := Halves(l, 0xAA, 1);
      && Tested(t, 1) == Tested(l, 2) && Tested(t, 2) == Tested(l, 1)
      && Tested(t, 4) == Tested(l, 8) && Tested(t, 8) == Tested(l, 4)
      && Tested(t, 16) == Tested(l, 32) && Tested(t, 32) == Tested(l, 16)
      && Tested(t, 64) == Tested(l, 128) && Tested(t, 128) == Tested(l, 64)
  {
    hide Tested;
    HalvesTradedA(l);
  }

  lemma HalvesTradedB(l: bv32)
    ensures var t := (((l & !0xCC & 0xFF) << (2 as bv32)) | ((l & 0xCC) >> (2 as bv32))) & 0xFF;
      && Tested(t, 1) == Tested(l, 4) && Tested(t, 2) == Tested(l, 8)
      && Tested(t, 4) == Tested(l, 1) && Tested(t, 8) == Tested(l, 2)
      && Tested(t, 16) == Tested(l, 64) && Tested(t, 32) == Tested(l, 128)
      && Tested(t, 64) == Tested(l, 16) && Tested(t, 128) == Tested(l, 32)
  {
  }

  lemma HalvesTestedB(l: bv32)
    ensures var t := Halves(l, 0xCC, 2);
      && Tested(t, 1) == Tested(l, 4) && Tested(t, 2) == Tested(l, 8)
      && Tested(t, 4) == Tested(l, 1) && Tested(t, 8) == Tested(l, 2)
      && Tested(t, 16) == Tested(l, 64) && Tested(t, 32) == Tested(l, 128)
      && Tested(t, 64) == Tested(l, 16) && Tested(t, 128) == Tested(l, 32)
  {
    hide Tested;
    HalvesTradedB(l);
  }

  lemma HalvesTradedC(l: bv32)
    ensures var t := (((l & !0xF0 & 0xFF) << (4 as bv32)) | ((l & 0xF0) >> (4 as bv32))) & 0xFF;
      && Tested(t, 1) == Tested(l, 16) && Tested(t, 2) == Tested(l, 32)
      && Tested(t, 4) == Tested(l, 64) && Tested(t, 8) == Tested(l, 128)
      && Tested(t, 16) == Tested(l, 1) && Tested(t, 32) == Tested(l, 2)
      && Tested(t, 64) == Tested(l, 4) && Tested(t, 128) == Tested(l, 8)
  {
  }

  lemma HalvesTestedC(l: bv32)
    ensures var t := Halves(l, 0xF0, 4);
      && Tested(t, 1) == Tested(l, 16) && Tested(t, 2) == Tested(l, 32)
      && Tested(t, 4) == Tested(l, 64) && Tested(t, 8) == Tested(l, 128)
      && Tested(t, 16) == Tested(l, 1) && Tested(t, 32) == Tested(l, 2)
      && Tested(t, 64) == Tested(l, 4) && Tested(t, 128) == Tested(l, 8)
  {
    hide Tested;
    HalvesTradedC(l);
  }

  lemma InvertSource3Word(l: bv32, s: Source)
    ensures s == 0 ==> InvertSource3(l, s) == Halves(l, 0xAA, 1)
    ensures s == 1 ==> InvertSource3(l, s) == Halves(l, 0xCC, 2)
    ensures s == 2 ==> InvertSource3(l, s) == Halves(l, 0xF0, 4)
  {
    hide SourceMask, TrailingZeros, Halves;
    SourceMasks(s);
    Shifts();
  }

  lemma Shifts()
    ensures TrailingZeros(0xAA) == 1 && TrailingZeros(0xCC) == 2 && TrailingZeros(0xF0) == 4
  {
  }

  lemma FlippedIndex(i: Index)
    ensures Flipped(i, 0) == (if i % 2 == 0 then i + 1 else i - 1)
    ensures Flipped(i, 1) == (if i / 2 % 2 == 0 then i + 2 else i - 2)
    ensures Flipped(i, 2) == (if i < 4 then i + 4 else i - 4)
  {
  }

  lemma InvertSource3Bits(l: bv32, s: Source, i: Index)
    ensures Bit(InvertSource3(l, s), i) == Bit(l, Flipped(i, s))
  {
    hide InvertSource3, Flipped, Halves, Tested, OneOfEight;
    FlippedIndex(i);
    InvertSource3Word(l, s);
    if s == 0 {
      HalvesTestedA(l);
    } else if s == 1 {
      HalvesTestedB(l);
    } else {
      HalvesTestedC(l);
    }
  }

  lemma NegatedMeans(e: Expr, s: Source, i: Index)
    ensures Eval(SourceNegated(e, s), AssignmentOf(i)) == Eval(e, AssignmentOf(Flipped(i, s)))
  {
    var x := AssignmentOf(i);
    var a, b, c := if s == 0 then Not(A) else A, if s == 1 then Not(B) else B, if s == 2 then Not(C) else C;
    SubstitutedMeans(e, a, b, c, x);
    assert Eval(a, x) == (if s == 0 then !x.a else x.a);
    assert Eval(b, x) == (if s == 1 then !x.b else x.b);
    assert Eval(c, x) == (if s == 2 then !x.c else x.c);
  }

  /** Inverting a source in the table negates it in the expression. */
  lemma InvertSource3Negates(e: Expr, s: Source)
    ensures InvertSource3(Lut3(e), s) == Lut3(SourceNegated(e, s))
  {
    hide Bit, Lut3, IsTable, InvertSource3, SourceNegated, AssignmentOf, Flipped;
    forall i: Index ensures Bit(InvertSource3(Lut3(e), s), i) == Bit(Lut3(SourceNegated(e, s)), i) {
      InvertSource3Bits(Lut3(e), s, i);
      Lut3Bits(e, Flipped(i, s));
      Lut3Bits(SourceNegated(e, s), i);
      NegatedMeans(e, s, i);
    }
    TablesEqual(InvertSource3(Lut3(e), s), Lut3(SourceNegated(e, s)));
  }

  lemma LowHalf(l: bv32, i: Index)
    ensures IsTable(l & 0x0F) && Bit(l & 0x0F, i) == (i < 4 && Bit(l, i))
  {
  }

  lemma InvertSource2Bits(e: Expr, s: Source, i: Index)
    ensures Bit(InvertSource2(Lut2(e), s), i) == (i < 4 && s < 2 && Bit(Lut2(SourceNegated(e, s)), i))
  {
    hide Bit, Lut2, IsTable, InvertSource3, SourceNegated, AssignmentOf, Flipped;
    FlippedIndex(i);
    LowHalf(InvertSource3(Lut2(e), s), i);
    InvertSource3Bits(Lut2(e), s, i);
    Lut2Bits(e, Flipped(i, s));
    Lut2Bits(SourceNegated(e, s), i);
    NegatedMeans(e, s, i);
  }

  lemma InvertSource2Works(e: Expr, s: Source)
    requires s < 2
    ensures InvertSource2(Lut2(e), s) == Lut2(SourceNegated(e, s))
  {
    hide Bit, Lut2, IsTable, InvertSource3, SourceNegated;
    var l := InvertSource2(Lut2(e), s);
    LowHalf(InvertSource3(Lut2(e), s), 0);
    forall i: Index ensures Bit(l, i) == Bit(Lut2(SourceNegated(e, s)), i) {
      InvertSource2Bits(e, s, i);
      Lut2Bits(SourceNegated(e, s), i);
    }
    TablesEqual(l, Lut2(SourceNegated(e, s)));
  }

  lemma InvertSource2Empties(e: Expr)
    ensures InvertSource2(Lut2(e), 2) == 0
  {
    hide Bit, Lut2, IsTable, InvertSource3, SourceNegated;
    var l := InvertSource2(Lut2(e), 2);
    LowHalf(InvertSource3(Lut2(e), 2), 0);
    forall i: Index ensures Bit(l, i) == Bit(0, i) {
      InvertSource2Bits(e, 2, i);
      NothingTested(i);
    }
    NothingTested(0);
    TablesEqual(l, 0);
  }

  /** The expression is false whenever `c` is true. */
  ghost predicate FalseAboveC(e: Expr) {
    forall a, b :: !Eval(e, Assignment(a, b, true))
  }

  lemma NegatedBits(e: Expr, i: Index)
    ensures Bit(Lut2(SourceNegated(e, 2)), i) == (i < 4 && Eval(e, Assignment(AssignmentOf(i).a, AssignmentOf(i).b, true)))
  {
    hide Bit, Lut2, SourceNegated;
    Lut2Bits(SourceNegated(e, 2), i);
    NegatedMeans(e, 2, i);
    if i < 4 {
      assert AssignmentOf(Flipped(i, 2)) == Assignment(AssignmentOf(i).a, AssignmentOf(i).b, true);
    }
  }

  lemma NegatedTableEmpty(e: Expr)
    ensures Lut2(SourceNegated(e, 2)) == 0 <==> FalseAboveC(e)
  {
    hide Bit, Lut2, SourceNegated, IsTable, Eval, AssignmentOf;
    var t := Lut2(SourceNegated(e, 2));
    NothingTested(0);
    if FalseAboveC(e) {
      forall i: Index ensures Bit(t, i) == Bit(0, i) {
        NegatedBits(e, i);
        NothingTested(i);
      }
      TablesEqual(t, 0);
    }
    if t == 0 {
      forall a, b ensures !Eval(e, Assignment(a, b, true)) {
        NegatedTableAt(e, a, b);
      }
    }
  }

  lemma NegatedTableAt(e: Expr, a: bool, b: bool)
    requires Lut2(SourceNegated(e, 2)) == 0
    ensures !Eval(e, Assignment(a, b, true))
  {
    hide Bit, Lut2, SourceNegated, Eval;
    var i := IndexOf(Assignment(a, b, false));
    assert i < 4;
    NegatedBits(e, i);
    NothingTested(i);
  }

  /** The two-source helper reuses the three-source one, whose assertion lets source 2
      through.  It negates the source in the expression exactly for the two sources a
      two-source table has, and for source 2 exactly when the expression is false whenever
      `c` is true; otherwise the emptied table is wrong. */
  lemma InvertSource2Negates(e: Expr, s: Source)
    ensures InvertSource2(Lut2(e), s) == Lut2(SourceNegated(e, s)) <==> s < 2 || FalseAboveC(e)
  {
    if s < 2 {
      InvertSource2Works(e, s);
    } else {
      InvertSource2Empties(e);
      NegatedTableEmpty(e);
    }
    hide InvertSource2, Lut2, SourceNegated, FalseAboveC;
  }

  /** Inverting source 2 of the table of `a` does not give `a` back, though `a` does not
      depend on `c`. */
  lemma InvertSource2FailsForA()
    ensures InvertSource2(Lut2(A), 2) != Lut2(SourceNegated(A, 2)) && SourceNegated(A, 2) == A
  {
    InvertSource2Negates(A, 2);
    assert Eval(A, Assignment(true, true, true));
    hide InvertSource2, Lut2;
  }

  lemma NothingTested(i: Index)
    ensures IsTable(0) && !Bit(0, i)
  {
  }
}
