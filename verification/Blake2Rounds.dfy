/** The rounds of BLAKE2b lose nothing: an inverse, built backwards from inverse rotations and subtractions. */
module Blake2Rounds {
  import opened Blake2Words
  import opened Rfc7693

  function UndoFirstHalf(q: Quad, x: U64): Quad {
    var b := Xor(Rotl24(q.b), q.c);
    var c := Sub(q.c, q.d);
    var d := Xor(Rotl32(q.d), q.a);
    var a := Sub(Sub(q.a, x), b);
    Quad(a, b, c, d)
  }

  function UndoSecondHalf(q: Quad, y: U64): Quad {
    var b := Xor(Rotl63(q.b), q.c);
    var c := Sub(q.c, q.d);
    var d := Xor(Rotl16(q.d), q.a);
    var a := Sub(Sub(q.a, y), b);
    Quad(a, b, c, d)
  }

  function UnmixQuad(q: Quad, x: U64, y: U64): Quad {
    UndoFirstHalf(UndoSecondHalf(q, y), x)
  }

  lemma FirstHalfInvertible(q: Quad, x: U64)
    ensures UndoFirstHalf(FirstHalf(q, x), x) == q
    ensures FirstHalf(UndoFirstHalf(q, x), x) == q
  {
    hide Add, Sub, Xor, Rotr32, Rotr24, Rotl32, Rotl24;
    var r := FirstHalf(q, x);
    RotlUndoesRotr(Xor(q.b, r.c));
    RotlUndoesRotr(Xor(q.d, r.a));
    XorUndoesXor(q.b, r.c);
    XorUndoesXor(q.d, r.a);
    SubUndoesAdd(q.c, r.d);
    SubUndoesAdd(Add(q.a, q.b), x);
    SubUndoesAdd(q.a, q.b);
    var u := UndoFirstHalf(q, x);
    SubUndoesAdd(Sub(q.a, x), u.b);
    SubUndoesAdd(q.a, x);
    XorUndoesXor(Rotl32(q.d), q.a);
    XorUndoesXor(Rotl24(q.b), q.c);
    RotlUndoesRotr(q.d);
    RotlUndoesRotr(q.b);
    SubUndoesAdd(q.c, q.d);
  }

  lemma SecondHalfInvertible(q: Quad, y: U64)
    ensures UndoSecondHalf(SecondHalf(q, y), y) == q
    ensures SecondHalf(UndoSecondHalf(q, y), y) == q
  {
    hide Add, Sub, Xor, Rotr16, Rotr63, Rotl16, Rotl63;
    var r := SecondHalf(q, y);
    RotlUndoesRotr(Xor(q.b, r.c));
    RotlUndoesRotr(Xor(q.d, r.a));
    XorUndoesXor(q.b, r.c);
    XorUndoesXor(q.d, r.a);
    SubUndoesAdd(q.c, r.d);
    SubUndoesAdd(Add(q.a, q.b), y);
    SubUndoesAdd(q.a, q.b);
    var u := UndoSecondHalf(q, y);
    SubUndoesAdd(Sub(q.a, y), u.b);
    SubUndoesAdd(q.a, y);
    XorUndoesXor(Rotl16(q.d), q.a);
    XorUndoesXor(Rotl63(q.b), q.c);
    RotlUndoesRotr(q.d);
    RotlUndoesRotr(q.b);
    SubUndoesAdd(q.c, q.d);
  }

  lemma MixQuadInvertible(q: Quad, x: U64, y: U64)
    ensures UnmixQuad(MixQuad(q, x, y), x, y) == q
    ensures MixQuad(UnmixQuad(q, x, y), x, y) == q
  {
    hide FirstHalf, SecondHalf, UndoFirstHalf, UndoSecondHalf;
    FirstHalfInvertible(q, x);
    SecondHalfInvertible(FirstHalf(q, x), y);
    SecondHalfInvertible(q, y);
    FirstHalfInvertible(UndoSecondHalf(q, y), x);
  }

  function UndoG(v: State16, a: Index, b: Index, c: Index, d: Index, x: U64, y: U64): State16 {
    WithQuad(v, a, b, c, d, UnmixQuad(QuadAt(v, a, b, c, d), x, y))
  }

  lemma WriteThenRead(v: State16, a: Index, b: Index, c: Index, d: Index, q: Quad)
    requires Distinct(a, b, c, d)
    ensures QuadAt(WithQuad(v, a, b, c, d, q), a, b, c, d) == q
  {
  }

  lemma GInvertible(v: State16, a: Index, b: Index, c: Index, d: Index, x: U64, y: U64)
    requires Distinct(a, b, c, d)
    ensures UndoG(G(v, a, b, c, d, x, y), a, b, c, d, x, y) == v
    ensures G(UndoG(v, a, b, c, d, x, y), a, b, c, d, x, y) == v
  {
    hide MixQuad, UnmixQuad;
    var q := QuadAt(v, a, b, c, d);
    MixQuadInvertible(q, x, y);
    WriteThenRead(v, a, b, c, d, MixQuad(q, x, y));
    WriteThenRead(v, a, b, c, d, UnmixQuad(q, x, y));
    WriteTwice(v, a, b, c, d, MixQuad(q, x, y), q);
    WriteTwice(v, a, b, c, d, UnmixQuad(q, x, y), q);
  }

  lemma WriteTwice(v: State16, a: Index, b: Index, c: Index, d: Index, q: Quad, r: Quad)
    requires Distinct(a, b, c, d) && r == QuadAt(v, a, b, c, d)
    ensures WithQuad(WithQuad(v, a, b, c, d, q), a, b, c, d, r) == v
  {
  }

  function UndoColumns(v: State16, m: State16, s: Permutation): State16 {
    var v := UndoG(v, 3, 7, 11, 15, m[s[6]], m[s[7]]);
    var v := UndoG(v, 2, 6, 10, 14, m[s[4]], m[s[5]]);
    var v := UndoG(v, 1, 5, 9, 13, m[s[2]], m[s[3]]);
    UndoG(v, 0, 4, 8, 12, m[s[0]], m[s[1]])
  }

  function UndoDiagonals(v: State16, m: State16, s: Permutation): State16 {
    var v := UndoG(v, 3, 4, 9, 14, m[s[14]], m[s[15]]);
    var v := UndoG(v, 2, 7, 8, 13, m[s[12]], m[s[13]]);
    var v := UndoG(v, 1, 6, 11, 12, m[s[10]], m[s[11]]);
    UndoG(v, 0, 5, 10, 15, m[s[8]], m[s[9]])
  }

  lemma ColumnsInvertible(v: State16, m: State16, s: Permutation)
    ensures UndoColumns(Columns(v, m, s), m, s) == v
    ensures Columns(UndoColumns(v, m, s), m, s) == v
  {
    hide G, UndoG;
    var x0, x1, x2, x3 := m[s[0]], m[s[2]], m[s[4]], m[s[6]];
    var y0, y1, y2, y3 := m[s[1]], m[s[3]], m[s[5]], m[s[7]];
    var v1 := G(v, 0, 4, 8, 12, x0, y0);
    var v2 := G(v1, 1, 5, 9, 13, x1, y1);
    var v3 := G(v2, 2, 6, 10, 14, x2, y2);
    GInvertible(v, 0, 4, 8, 12, x0, y0);
    GInvertible(v1, 1, 5, 9, 13, x1, y1);
    GInvertible(v2, 2, 6, 10, 14, x2, y2);
    GInvertible(v3, 3, 7, 11, 15, x3, y3);
    var u3 := UndoG(v, 3, 7, 11, 15, x3, y3);
    var u2 := UndoG(u3, 2, 6, 10, 14, x2, y2);
    var u1 := UndoG(u2, 1, 5, 9, 13, x1, y1);
    GInvertible(v, 3, 7, 11, 15, x3, y3);
    GInvertible(u3, 2, 6, 10, 14, x2, y2);
    GInvertible(u2, 1, 5, 9, 13, x1, y1);
    GInvertible(u1, 0, 4, 8, 12, x0, y0);
  }

  lemma DiagonalsInvertible(v: State16, m: State16, s: Permutation)
    ensures UndoDiagonals(Diagonals(v, m, s), m, s) == v
    ensures Diagonals(UndoDiagonals(v, m, s), m, s) == v
  {
    hide G, UndoG;
    var x0, x1, x2, x3 := m[s[8]], m[s[10]], m[s[12]], m[s[14]];
    var y0, y1, y2, y3 := m[s[9]], m[s[11]], m[s[13]], m[s[15]];
    var v1 := G(v, 0, 5, 10, 15, x0, y0);
    var v2 := G(v1, 1, 6, 11, 12, x1, y1);
    var v3 := G(v2, 2, 7, 8, 13, x2, y2);
    GInvertible(v, 0, 5, 10, 15, x0, y0);
    GInvertible(v1, 1, 6, 11, 12, x1, y1);
    GInvertible(v2, 2, 7, 8, 13, x2, y2);
    GInvertible(v3, 3, 4, 9, 14, x3, y3);
    var u3 := UndoG(v, 3, 4, 9, 14, x3, y3);
    var u2 := UndoG(u3, 2, 7, 8, 13, x2, y2);
    var u1 := UndoG(u2, 1, 6, 11, 12, x1, y1);
    GInvertible(v, 3, 4, 9, 14, x3, y3);
    GInvertible(u3, 2, 7, 8, 13, x2, y2);
    GInvertible(u2, 1, 6, 11, 12, x1, y1);
    GInvertible(u1, 0, 5, 10, 15, x0, y0);
  }

  function UndoRound(v: State16, m: State16, i: nat): State16 {
    UndoColumns(UndoDiagonals(v, m, Sigma(i % 10)), m, Sigma(i % 10))
  }

  /** Undoes the first n rounds, the last of them first. */
  function UndoRounds(v: State16, m: State16, n: nat): State16
    decreases n
  {
    if n == 0 then v else UndoRounds(UndoRound(v, m, n - 1), m, n - 1)
  }

  /** For a fixed message block the rounds are a bijection on working vectors, whatever their number. */
  lemma {:induction false} RoundsInvertible(v: State16, m: State16, n: nat)
    ensures UndoRounds(Rounds(v, m, n), m, n) == v
    ensures Rounds(UndoRounds(v, m, n), m, n) == v
    decreases n
  {
    hide Columns, Diagonals, UndoColumns, UndoDiagonals, Sigma;
    if n > 0 {
      var s := Sigma((n - 1) % 10);
      var w := Rounds(v, m, n - 1);
      RoundsInvertible(v, m, n - 1);
      ColumnsInvertible(w, m, s);
      DiagonalsInvertible(Columns(w, m, s), m, s);
      RoundsInvertible(UndoRound(v, m, n - 1), m, n - 1);
      DiagonalsInvertible(v, m, s);
      ColumnsInvertible(UndoDiagonals(v, m, s), m, s);
    }
  }

  /** Different working vectors stay different through the compression function's twelve rounds. */
  lemma RoundsInjective(v: State16, w: State16, m: State16)
    requires Rounds(v, m, ROUND_COUNT) == Rounds(w, m, ROUND_COUNT)
    ensures v == w
  {
    RoundsInvertible(v, m, ROUND_COUNT);
    RoundsInvertible(w, m, ROUND_COUNT);
  }
}
