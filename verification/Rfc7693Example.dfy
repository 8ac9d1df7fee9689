/** The example of appendix A of RFC 7693: the trace of the compression function and the digest for "abc". It
    fixes every constant, rotation, index and byte order of the definitions it is computed from. */
module Rfc7693Example {
  import opened Blake2Words
  import opened Rfc7693

  // ----- a round on the columns and diagonals of the working vector -----

  /** The working vector as four columns, or as four diagonals. */
  datatype Matrix = Matrix(q0: Quad, q1: Quad, q2: Quad, q3: Quad)

  predicate Holds(v: State16, i: Index, j: Index, k: Index, l: Index, q: Quad) {
    QuadAt(v, i, j, k, l) == q
  }

  predicate Columned(v: State16, x: Matrix) {
    && Holds(v, 0, 4, 8, 12, x.q0)
    && Holds(v, 1, 5, 9, 13, x.q1)
    && Holds(v, 2, 6, 10, 14, x.q2)
    && Holds(v, 3, 7, 11, 15, x.q3)
  }

  predicate Slanted(v: State16, x: Matrix) {
    && Holds(v, 0, 5, 10, 15, x.q0)
    && Holds(v, 1, 6, 11, 12, x.q1)
    && Holds(v, 2, 7, 8, 13, x.q2)
    && Holds(v, 3, 4, 9, 14, x.q3)
  }

  /** The diagonals of a vector given by columns. */
  function Turned(x: Matrix): Matrix {
    Matrix(Quad(x.q0.a, x.q1.b, x.q2.c, x.q3.d), Quad(x.q1.a, x.q2.b, x.q3.c, x.q0.d),
           Quad(x.q2.a, x.q3.b, x.q0.c, x.q1.d), Quad(x.q3.a, x.q0.b, x.q1.c, x.q2.d))
  }

  lemma TurnedIsSame(v: State16, x: Matrix)
    ensures Slanted(v, Turned(x)) <==> Columned(v, x)
  {
  }

  predicate NotIn(i: Index, a: Index, b: Index, c: Index, d: Index) {
    i != a && i != b && i != c && i != d
  }

  lemma Mixed(v: State16, a: Index, b: Index, c: Index, d: Index, x: U64, y: U64, q: Quad)
    requires Distinct(a, b, c, d) && Holds(v, a, b, c, d, q)
    ensures Holds(G(v, a, b, c, d, x, y), a, b, c, d, MixQuad(q, x, y))
  {
    hide MixQuad;
  }

  lemma Unmixed(v: State16, a: Index, b: Index, c: Index, d: Index, x: U64, y: U64,
                i: Index, j: Index, k: Index, l: Index, q: Quad)
    requires NotIn(i, a, b, c, d) && NotIn(j, a, b, c, d) && NotIn(k, a, b, c, d) && NotIn(l, a, b, c, d)
    requires Holds(v, i, j, k, l, q)
    ensures Holds(G(v, a, b, c, d, x, y), i, j, k, l, q)
  {
    hide MixQuad;
  }

  lemma Column0(v: State16, x: Matrix, m0: U64, m1: U64)
    requires Columned(v, x)
    ensures Columned(G(v, 0, 4, 8, 12, m0, m1), x.(q0 := MixQuad(x.q0, m0, m1)))
  {
    hide G, Holds, MixQuad;
    Mixed(v, 0, 4, 8, 12, m0, m1, x.q0);
    Unmixed(v, 0, 4, 8, 12, m0, m1, 1, 5, 9, 13, x.q1);
    Unmixed(v, 0, 4, 8, 12, m0, m1, 2, 6, 10, 14, x.q2);
    Unmixed(v, 0, 4, 8, 12, m0, m1, 3, 7, 11, 15, x.q3);
  }

  lemma Column1(v: State16, x: Matrix, m0: U64, m1: U64)
    requires Columned(v, x)
    ensures Columned(G(v, 1, 5, 9, 13, m0, m1), x.(q1 := MixQuad(x.q1, m0, m1)))
  {
    hide G, Holds, MixQuad;
    Mixed(v, 1, 5, 9, 13, m0, m1, x.q1);
    Unmixed(v, 1, 5, 9, 13, m0, m1, 0, 4, 8, 12, x.q0);
    Unmixed(v, 1, 5, 9, 13, m0, m1, 2, 6, 10, 14, x.q2);
    Unmixed(v, 1, 5, 9, 13, m0, m1, 3, 7, 11, 15, x.q3);
  }

  lemma Column2(v: State16, x: Matrix, m0: U64, m1: U64)
    requires Columned(v, x)
    ensures Columned(G(v, 2, 6, 10, 14, m0, m1), x.(q2 := MixQuad(x.q2, m0, m1)))
  {
    hide G, Holds, MixQuad;
    Mixed(v, 2, 6, 10, 14, m0, m1, x.q2);
    Unmixed(v, 2, 6, 10, 14, m0, m1, 0, 4, 8, 12, x.q0);
    Unmixed(v, 2, 6, 10, 14, m0, m1, 1, 5, 9, 13, x.q1);
    Unmixed(v, 2, 6, 10, 14, m0, m1, 3, 7, 11, 15, x.q3);
  }

  lemma Column3(v: State16, x: Matrix, m0: U64, m1: U64)
    requires Columned(v, x)
    ensures Columned(G(v, 3, 7, 11, 15, m0, m1), x.(q3 := MixQuad(x.q3, m0, m1)))
  {
    hide G, Holds, MixQuad;
    Mixed(v, 3, 7, 11, 15, m0, m1, x.q3);
    Unmixed(v, 3, 7, 11, 15, m0, m1, 0, 4, 8, 12, x.q0);
    Unmixed(v, 3, 7, 11, 15, m0, m1, 1, 5, 9, 13, x.q1);
    Unmixed(v, 3, 7, 11, 15, m0, m1, 2, 6, 10, 14, x.q2);
  }

  lemma Diagonal0(v: State16, x: Matrix, m0: U64, m1: U64)
    requires Slanted(v, x)
    ensures Slanted(G(v, 0, 5, 10, 15, m0, m1), x.(q0 := MixQuad(x.q0, m0, m1)))
  {
    hide G, Holds, MixQuad;
    Mixed(v, 0, 5, 10, 15, m0, m1, x.q0);
    Unmixed(v, 0, 5, 10, 15, m0, m1, 1, 6, 11, 12, x.q1);
    Unmixed(v, 0, 5, 10, 15, m0, m1, 2, 7, 8, 13, x.q2);
    Unmixed(v, 0, 5, 10, 15, m0, m1, 3, 4, 9, 14, x.q3);
  }

  lemma Diagonal1(v: State16, x: Matrix, m0: U64, m1: U64)
    requires Slanted(v, x)
    ensures Slanted(G(v, 1, 6, 11, 12, m0, m1), x.(q1 := MixQuad(x.q1, m0, m1)))
  {
    hide G, Holds, MixQuad;
    Mixed(v, 1, 6, 11, 12, m0, m1, x.q1);
    Unmixed(v, 1, 6, 11, 12, m0, m1, 0, 5, 10, 15, x.q0);
    Unmixed(v, 1, 6, 11, 12, m0, m1, 2, 7, 8, 13, x.q2);
    Unmixed(v, 1, 6, 11, 12, m0, m1, 3, 4, 9, 14, x.q3);
  }

  lemma Diagonal2(v: State16, x: Matrix, m0: U64, m1: U64)
    requires Slanted(v, x)
    ensures Slanted(G(v, 2, 7, 8, 13, m0, m1), x.(q2 := MixQuad(x.q2, m0, m1)))
  {
    hide G, Holds, MixQuad;
    Mixed(v, 2, 7, 8, 13, m0, m1, x.q2);
    Unmixed(v, 2, 7, 8, 13, m0, m1, 0, 5, 10, 15, x.q0);
    Unmixed(v, 2, 7, 8, 13, m0, m1, 1, 6, 11, 12, x.q1);
    Unmixed(v, 2, 7, 8, 13, m0, m1, 3, 4, 9, 14, x.q3);
  }

  lemma Diagonal3(v: State16, x: Matrix, m0: U64, m1: U64)
    requires Slanted(v, x)
    ensures Slanted(G(v, 3, 4, 9, 14, m0, m1), x.(q3 := MixQuad(x.q3, m0, m1)))
  {
    hide G, Holds, MixQuad;
    Mixed(v, 3, 4, 9, 14, m0, m1, x.q3);
    Unmixed(v, 3, 4, 9, 14, m0, m1, 0, 5, 10, 15, x.q0);
    Unmixed(v, 3, 4, 9, 14, m0, m1, 1, 6, 11, 12, x.q1);
    Unmixed(v, 3, 4, 9, 14, m0, m1, 2, 7, 8, 13, x.q2);
  }

  lemma ColumnsAre(v: State16, x: Matrix, y: Matrix, m: State16, s: Permutation)
    requires Columned(v, x)
    requires y.q0 == MixQuad(x.q0, m[s[0]], m[s[1]]) && y.q1 == MixQuad(x.q1, m[s[2]], m[s[3]])
    requires y.q2 == MixQuad(x.q2, m[s[4]], m[s[5]]) && y.q3 == MixQuad(x.q3, m[s[6]], m[s[7]])
    ensures Columned(Columns(v, m, s), y)
  {
    hide MixQuad, Columned, G;
    Column0(v, x, m[s[0]], m[s[1]]);
    var v0 := G(v, 0, 4, 8, 12, m[s[0]], m[s[1]]);
    Column1(v0, x.(q0 := y.q0), m[s[2]], m[s[3]]);
    var v1 := G(v0, 1, 5, 9, 13, m[s[2]], m[s[3]]);
    Column2(v1, x.(q0 := y.q0, q1 := y.q1), m[s[4]], m[s[5]]);
    var v2 := G(v1, 2, 6, 10, 14, m[s[4]], m[s[5]]);
    Column3(v2, x.(q0 := y.q0, q1 := y.q1, q2 := y.q2), m[s[6]], m[s[7]]);
  }

  lemma DiagonalsAre(v: State16, x: Matrix, y: Matrix, m: State16, s: Permutation)
    requires Slanted(v, x)
    requires y.q0 == MixQuad(x.q0, m[s[8]], m[s[9]]) && y.q1 == MixQuad(x.q1, m[s[10]], m[s[11]])
    requires y.q2 == MixQuad(x.q2, m[s[12]], m[s[13]]) && y.q3 == MixQuad(x.q3, m[s[14]], m[s[15]])
    ensures Slanted(Diagonals(v, m, s), y)
  {
    hide MixQuad, Slanted, G;
    Diagonal0(v, x, m[s[8]], m[s[9]]);
    var v0 := G(v, 0, 5, 10, 15, m[s[8]], m[s[9]]);
    Diagonal1(v0, x.(q0 := y.q0), m[s[10]], m[s[11]]);
    var v1 := G(v0, 1, 6, 11, 12, m[s[10]], m[s[11]]);
    Diagonal2(v1, x.(q0 := y.q0, q1 := y.q1), m[s[12]], m[s[13]]);
    var v2 := G(v1, 2, 7, 8, 13, m[s[12]], m[s[13]]);
    Diagonal3(v2, x.(q0 := y.q0, q1 := y.q1, q2 := y.q2), m[s[14]], m[s[15]]);
  }

  // ----- the trace -----

  const ABC: seq<U8> := [0x61, 0x62, 0x63]

  const WORD: U64 := 0x636261

  /** The message words of the block that holds "abc". */
  const ABC_WORDS: State16 := [WORD, 0, 0, 0, 0, 0, 0, 0, 0, 0, 0, 0, 0, 0, 0, 0]

  function V0(): Matrix {
    Matrix(
      Quad(0x6A09E667F2BDC948, 0x510E527FADE682D1, 0x6A09E667F3BCC908, 0x510E527FADE682D2),
      Quad(0xBB67AE8584CAA73B, 0x9B05688C2B3E6C1F, 0xBB67AE8584CAA73B, 0x9B05688C2B3E6C1F),
      Quad(0x3C6EF372FE94F82B, 0x1F83D9ABFB41BD6B, 0x3C6EF372FE94F82B, 0xE07C265404BE4294),
      Quad(0xA54FF53A5F1D36F1, 0x5BE0CD19137E2179, 0xA54FF53A5F1D36F1, 0x5BE0CD19137E2179))
  }

  function W0(): Matrix {
    Matrix(
      Quad(0xF0C9AA0F86491DEA, 0xB7DEFC3D0277E11F, 0xEE5E0F39647A9FFF, 0x7772FC2886A76C5F),
      Quad(0x63B7DEDF4A4E5AD3, 0xED49C30CD311D50E, 0x7BEE264BF3CDADFE, 0x254EF880A19A8726),
      Quad(0xBE50EB454E0A93D7, 0xA056671704B00D71, 0xB2752DADD66BD8F9, 0x789D43381C47F584),
      Quad(0x949804B0483EAD14, 0x75E6432FC4661B06, 0xA99463CB37905929, 0xA25EF57D7DA312EE))
  }

  function V1(): Matrix {
    Matrix(
      Quad(0x86B7C1568029BB79, 0x44EE6039BD86A9F7, 0xBEC3AE837EAC4887, 0xE02D0975B8D37A83),
      Quad(0xC12CBCC809FF59F3, 0xA447C850AA694A7E, 0x6267FC79DF9D6AD1, 0x1C7B754F08B7D193),
      Quad(0xC6A5214CC0EACA8E, 0xDE080F1BB1C0F84B, 0xFA87B01273FA6DBE, 0x8F885A76B6E578FE),
      Quad(0x0C87CD524C14CC5D, 0x595CB8A9A1ACA66C, 0x521A715C63E08D8A, 0x2318A24E2140FC64))
  }

  function W1(): Matrix {
    Matrix(
      Quad(0x7D7EBC91065EB487, 0xA2A2BB290A6FA0AC, 0xE089C6944D999F41, 0x9C62F81DA3622DD5),
      Quad(0x2985DBD3B522B163, 0x48DAA2180CCA574F, 0x607C07B706DF2755, 0x4134955AAE31CC2D),
      Quad(0x83DCC7C95110E507, 0x25804D5986D6E07F, 0x4DEFB1CC1D0E5211, 0x8F1947927DEE7A35),
      Quad(0xD5F7D943AE7A12D4, 0x47DC958F84E67B9C, 0x53FD198002CB9DC5, 0x3561197657EEE886))
  }

  function V2(): Matrix {
    Matrix(
      Quad(0x53281E83806010F2, 0xBAABDBB2F386D9AE, 0x224E6A3369224F96, 0x92A3AAAA6D952B7F),
      Quad(0x3594B403F81B4393, 0xCA5425AEC65A10A8, 0x500E125E58A92923, 0xC5FDF71090FAE853),
      Quad(0x8CD63C7462DE0DFF, 0xC6A22E2FF0F7AA48, 0xE9E4AD0D0E1A0D48, 0x2A8A40F15A462DD0),
      Quad(0x85F693F3DA53F974, 0xC6A56A51CB89C595, 0x85DF9DC143C59A74, 0x572D17EFFDD37358))
  }

  function W2(): Matrix {
    Matrix(
      Quad(0x224D9730DDDE8C9B, 0x1161E9566CEC8636, 0x1CC968515F81E2E0, 0xDC073C3E56EF42AE),
      Quad(0xE430476788C41EF0, 0x956FE864884AC584, 0xAEF099868DCE0A96, 0x3052CABFFB0FB2D1),
      Quad(0x4F163FDA2E4243BF, 0x4DFEB83FD06A086B, 0x5D62892A32598F4D, 0x69EA4685AA4D57B0),
      Quad(0x41DD8960F0DE029D, 0x78C811FDDF5C5824, 0xC92583E5A4AE6F86, 0xEB3719D34531EB68))
  }

  function V3(): Matrix {
    Matrix(
      Quad(0x60ED96AA7AD41725, 0xDA0A61BCDE4267EA, 0xA1677E19F37FD5DA, 0xC804EBAB11C99FA9),
      Quad(0xE46A743C71800B9D, 0xB1DD230754D7BDEE, 0x22BDCE6976B08C51, 0x8E0CEC959C715793),
      Quad(0x1A04B543A01F156B, 0x25A1422779E06D14, 0xF1DE8696BEC11BF1, 0x7C45557FAE0D4D89),
      Quad(0xA2F8716E775C4877, 0xE6823AE4C3FF58A5, 0xA0EBD586A4A1D2C8, 0x716343F52FDD265E))
  }

  function W3(): Matrix {
    Matrix(
      Quad(0x6B864497A655FB47, 0xC4B99C558F3684E9, 0xD2D2821A8AA43E4C, 0xE88B2359A43154A6),
      Quad(0xC1FD6110FFA75065, 0x065B83216E96ED93, 0xA898085D8E04F013, 0x2BB39BDBFF08E7EC),
      Quad(0x817908F78A142CFA, 0xF2D93929736E5B04, 0x38BF8D18C9A387F9, 0x8EEE368BC701C9F4),
      Quad(0xCE1577A72BC1CE7B, 0x2795F81CFB8F7633, 0xD750375D8DA19646, 0x21DDDA93F0E5D3D8))
  }

  function V4(): Matrix {
    Matrix(
      Quad(0xBB2A77D3A8382351, 0x8A03C4CB7E97590A, 0xA9C9A8F17B1FC614, 0x086092CFB858437E),
      Quad(0x45EB47971F23B103, 0x24192E49EBF54EA0, 0x55908187977514A0, 0x5C4BE2156DBEECF9),
      Quad(0x98BE297F6E45C684, 0x4F82C9401CB32D7A, 0x5B44273E66B19D27, 0x2EFEDE99ED4EFF16),
      Quad(0xA36077DEE3370B89, 0x8CCD013726420DC4, 0xB6D5C9FCA2579327, 0x3E7B5F234CD1F804))
  }

  function W4(): Matrix {
    Matrix(
      Quad(0x3E5BAB618A5FBC72, 0x475DCC427F3FCD87, 0x5A8388E35CB33B75, 0x1222A0CC9444C711),
      Quad(0x9BE6AA793AD3A7C9, 0xBB2D4D7552BA222D, 0xEC74922286E7B930, 0x303DFD40B9230C9C),
      Quad(0xC5252A4D03F65B2F, 0xCDCFC26E59D1D349, 0x3A03D6BA54158E95, 0x7709A29326A5C548),
      Quad(0x1FE21186BD238BE3, 0x8BC33BC025AE3C8E, 0xAA550590A17D6CD1, 0xADD65A4AF0CFB375))
  }

  function V5(): Matrix {
    Matrix(
      Quad(0xC79C15B3D423B099, 0x0F6D9EEED157DA2A, 0xB2240B59E6D567D3, 0xB97D2D439E4DF63D),
      Quad(0x2DA2224E8DA97556, 0x6FE66467AF88C0A9, 0x2643C2370E49EBFD, 0xC718E755294C9111),
      Quad(0x77D2B26DF1C45C55, 0x4EB0B76284C7AAFB, 0x79E02EEF20CDB1AE, 0x1F0893F2772BB373),
      Quad(0x8934EB09A3456052, 0x299C8E725D954697, 0x64B3EED7BB602F39, 0x1205EA4A7859807D))
  }

  function W5(): Matrix {
    Matrix(
      Quad(0xF4E55384DC924147, 0xB7B58D9367A4043D, 0xC601582B84C4B49A, 0xD8A6CFD32F7AB2E6),
      Quad(0xF015D00B613578C6, 0x02CA058BF3799684, 0x53E84B90DDBF8985, 0x1925E46B74E53BA5),
      Quad(0x648495058CAE3D2F, 0xB9668B8EBF3FA717, 0x42B26EF24A2100F5, 0xC70D65404FC75525),
      Quad(0x54567270AC75C4EA, 0x292F756A3507A223, 0x35134241B118CF10, 0x57DC2CD554E40CA1))
  }

  function V6(): Matrix {
    Matrix(
      Quad(0xE58F97D6385BAEE4, 0x7127CD48C76A7708, 0x41CCA9073C8C4D0D, 0x8733794F07AC1500),
      Quad(0x7640AA9764DA137A, 0x9E472AF0BE3DB3F6, 0x5C7912BC10DF3B4B, 0xC67A6BE42335AA6F),
      Quad(0xDEB4C7C23EFE287E, 0x0F244C62DDF71788, 0xA2C3ABBD37510EE2, 0xACB22B28681E4C82),
      Quad(0x70F6F41C8783C9F6, 0x219828AA83880842, 0xCB5668CC2A9F7859, 0xDB2161604CBC9828))
  }

  function W6(): Matrix {
    Matrix(
      Quad(0xD0D5BB6A10DAE2B5, 0x860AA9F111072CEA, 0x391B02B399972ABC, 0xFEE428BF8B86C15E),
      Quad(0xF5D2174AFF6CF2CD, 0x90EE681D04CE182A, 0xA93D75CC5E322748, 0x4CA1F5F07A552D91),
      Quad(0x39337B3DA7E963AB, 0x7E1EC202F5042FA8, 0x74550619F0763471, 0x5CA64DD877B9E682),
      Quad(0x588D5EF9A0A6492F, 0x04D72048395B53FF, 0x4795D2168937DF08, 0x34881F3A14E9E908))
  }

  function V7(): Matrix {
    Matrix(
      Quad(0x6E2D286EEADEDC81, 0x819415B56220C459, 0x04D769B3FCB048DB, 0x92AAC307CF2C0AFC),
      Quad(0xBCF02C0787E86358, 0xB63C479A6A769F02, 0xB78A9A33E9BFF4DD, 0x30AACCC4F06DAFAA),
      Quad(0x57D56A56DD015EDF, 0x258E55E0EC1F362A, 0x5777272AE1E930C0, 0x483893CC094F8863),
      Quad(0x55D899D40A5D0D0A, 0x3A3B4EC60E19DFDC, 0x5A387849E578DBF6, 0xE03C6CC89C26BF92))
  }

  function W7(): Matrix {
    Matrix(
      Quad(0x2C42E52D8C060FF2, 0x8FFAC8C5EC5CB0E6, 0x7B7CC36BC928376B, 0xF2D1AF914F0BF16D),
      Quad(0xA357B3B1736EC0A1, 0x1355530D9510B6DA, 0x3981E9894B87E52A, 0x7FC4A1651E4130E8),
      Quad(0xD916516A31320B04, 0x56AF9E7816ABF9BE, 0x70E55E0E63448924, 0x58FF19794C000469),
      Quad(0x41D37D7ECBFC6541, 0x1C460B4A606CC880, 0xBF9C914183B31C1B, 0xE113C5832E0ABBD3))
  }

  function V8(): Matrix {
    Matrix(
      Quad(0xFFC83ECE76024D01, 0x81937DA314A50838, 0xA3C2D35E4F685C10, 0x3841DEF6F4C9848A),
      Quad(0x1BE7BFFB8C5CC5F9, 0xE1179523A2541963, 0xA53D3F73AA619624, 0x98662C85FBA726D4),
      Quad(0xA35A18CBAC4C65B7, 0x3A1FAD7106232B8F, 0x30BBCC0285A22F65, 0x7762439BD5A851BD),
      Quad(0xB7C2C7E6D88C285F, 0x1C7EDE92AB8B9C46, 0xBCEFBB6A81539E5D, 0xB0B9F0D443D1A889))
  }

  function W8(): Matrix {
    Matrix(
      Quad(0xA9126C152D800655, 0x4165A65AC9E3C45B, 0x87047C8EC6295331, 0x64D2D77CBDA6949A),
      Quad(0xAC1632BA715EBF08, 0xDFE2D8CD3101F453, 0x40E7B1FDDA2D2585, 0xC6927901CB3215C7),
      Quad(0x7C1849DF4E91206F, 0x41AA56FE49862D7F, 0x3E4BA8DDB8E29996, 0xA5C81BDF8924E48A),
      Quad(0x94AAF312690F9253, 0x13E3A2C50CFAD099, 0x49989DFA62E90301, 0xC4FE53007C9D0DF7))
  }

  function V9(): Matrix {
    Matrix(
      Quad(0x753A70A1E8FAEADD, 0x58540EE1B1AEBC47, 0x316CC9EBEEFAD8FC, 0x88ED6C4F3BD7A537),
      Quad(0x6B0D43CA2C25D629, 0x63C5B9B80D294CB9, 0x4A466BCD021526A4, 0x19AE688DDF67F026),
      Quad(0xF8343BA8B94F8C0B, 0x490870ECAD27DEBD, 0x5DA7F7638CEC5669, 0x4D8707AAB40F7E6D),
      Quad(0xBC7D062B0DB5CF35, 0xB2A90DDF667287FE, 0xD9C8826727D306FC, 0xFD3F572687FEA4F1))
  }

  function W9(): Matrix {
    Matrix(
      Quad(0xC0DF0F0E596EC5A9, 0xB4014455FF7C2CA0, 0xA9502DA0417B08D5, 0xD66561A10D1D1C0D),
      Quad(0x87CA07D5E3D64CB6, 0x65BF544E084BB313, 0x0A28A074AEA2F05D, 0xD9B961E2D51134AA),
      Quad(0xD11BC20E8EF44EFC, 0x3478342AB05ECF87, 0x15E30F6C705383F7, 0xE5C30363D6AB824F),
      Quad(0x0DF3EA89AAA44E12, 0x88274463CA98E874, 0xDADE744ED33782E5, 0x0D3EFE25194B38BD))
  }

  function V10(): Matrix {
    Matrix(
      Quad(0xE630C747CCD59C4F, 0x2D04185EAC2A8CBA, 0x6DD4FBC1DE60165D, 0x2C6B25593D717852),
      Quad(0xBC713D41127571CA, 0x5F311B88904056EC, 0xB3B0B51DE3C86270, 0x37E8CA471BEAA5F8),
      Quad(0x46DB183025025078, 0x40BD313009201AAB, 0x900AEE2F233B08E5, 0x2CFC1BAC10EF4457),
      Quad(0x6727E81260610140, 0x0099D4F82A2A1EAB, 0xA07199D87AD058D8, 0x01369EC18746E775))
  }

  function W10(): Matrix {
    Matrix(
      Quad(0xFDD2C6435D5A301B, 0x2CA29C4D619BAFA1, 0x7CCCA8BA533B7361, 0xCAE4B9C0357B6205),
      Quad(0x6E446AFBC3EFAD36, 0xFCD5D76A6DE20047, 0xACC8F98717C8E4A3, 0x3FB8D71B07B5EFA5),
      Quad(0x46D963EE934EFEEA, 0x8B7F1E6CFC2A0039, 0x7AFE95B81B3993DB, 0xAC2678144C9A382A),
      Quad(0x5523C5B930D1AEB6, 0xADBDC7977150B805, 0x3BBCEB651EEED2C9, 0x8D7D58EE3D275626))
  }

  function V11(): Matrix {
    Matrix(
      Quad(0xE801F73B9768C760, 0xF4F1BE86690B3C34, 0x35BA354A9C7DF448, 0x61B5C0A41D491399),
      Quad(0x35C6D22320BE511D, 0x3CC88735D1475E4B, 0x4929CBE45679D73E, 0xB5C333457E12844A),
      Quad(0x306F27584F65495E, 0x5DAC67921FF76949, 0x733D1A17248F39DB, 0xBD696BE010D0D889),
      Quad(0xB51776ADF569A77B, 0x1CDB9D31AD70CC4E, 0x92D57B736F5F170A, 0x02231E1A917FE0BD))
  }

  function W11(): Matrix {
    Matrix(
      Quad(0xAC495068076FE1C4, 0x5198D8D539A3FBCE, 0xE799F6CC9A2A23D7, 0x94A2B1744065BA29),
      Quad(0xF3AE6A427A75E234, 0xB8EACC53AEAD98B1, 0x5D6A76C05F26FE94, 0x88297FB94160BD39),
      Quad(0x83933B99D54089EE, 0x55B2599798B3A4A1, 0x5FAE8064A9BA0517, 0x6CE4FC1F51B7E632),
      Quad(0x31DB95BA436E4DB7, 0xB20B2179D2DCD8C6, 0x06ED116649FDB58D, 0x4072027E06CE90BE))
  }

  function V12(): Matrix {
    Matrix(
      Quad(0x12EF8A641EC4F6D6, 0xF42C16519AD5AFA7, 0x75AB709BD3DCBF24, 0x885BEF040EF6AA0B),
      Quad(0xBCED5DE977C9FAF5, 0xAA5AC1888E10467E, 0xEE7CE1F345947AA4, 0xA4939A417BFB78A3),
      Quad(0x733CA476C5148639, 0x217D930AA51787F3, 0xF8960D6C2FAF5F5E, 0x646CBB7AF6DCE980),
      Quad(0x97DF596B0610F6FC, 0x906A6FF19E573942, 0xE332538A36B6D246, 0xE813A23C60AF3B82))
  }

  lemma NextRound(v: State16, n: nat)
    ensures Rounds(v, ABC_WORDS, n + 1) == Round(Rounds(v, ABC_WORDS, n), ABC_WORDS, n)
  {
  }

  lemma AbcWords()
    ensures forall k: Index :: ABC_WORDS[k] == if k == 0 then WORD else 0
  {
  }

  /** From a vector x to y by the columns, from y to z by the diagonals of a round. */
  lemma RoundIs(v: State16, x: Matrix, y: Matrix, z: Matrix, m: State16, i: nat)
    requires Columned(v, x)
    requires var s := Sigma(i % 10);
             && y.q0 == MixQuad(x.q0, m[s[0]], m[s[1]]) && y.q1 == MixQuad(x.q1, m[s[2]], m[s[3]])
             && y.q2 == MixQuad(x.q2, m[s[4]], m[s[5]]) && y.q3 == MixQuad(x.q3, m[s[6]], m[s[7]])
    requires var s, u, w := Sigma(i % 10), Turned(y), Turned(z);
             && w.q0 == MixQuad(u.q0, m[s[8]], m[s[9]]) && w.q1 == MixQuad(u.q1, m[s[10]], m[s[11]])
             && w.q2 == MixQuad(u.q2, m[s[12]], m[s[13]]) && w.q3 == MixQuad(u.q3, m[s[14]], m[s[15]])
    ensures Columned(Round(v, m, i), z)
  {
    hide MixQuad, Columns, Diagonals, Columned, Slanted, Turned, Sigma;
    var s := Sigma(i % 10);
    ColumnsAre(v, x, y, m, s);
    TurnedIsSame(Columns(v, m, s), y);
    DiagonalsAre(Columns(v, m, s), Turned(y), Turned(z), m, s);
    TurnedIsSame(Round(v, m, i), z);
  }

  lemma Columns0()
    ensures W0().q0 == MixQuad(V0().q0, WORD, 0) && W0().q1 == MixQuad(V0().q1, 0, 0)
    ensures W0().q2 == MixQuad(V0().q2, 0, 0) && W0().q3 == MixQuad(V0().q3, 0, 0)
  {
  }

  lemma Diagonals0()
    ensures var u, v := Turned(W0()), Turned(V1());
            && v.q0 == MixQuad(u.q0, 0, 0) && v.q1 == MixQuad(u.q1, 0, 0)
            && v.q2 == MixQuad(u.q2, 0, 0) && v.q3 == MixQuad(u.q3, 0, 0)
  {
  }

  lemma WordAt0()
    ensures var s := Sigma(0); s[0] == 0 && forall k: Index :: k != 0 ==> s[k] != 0
  {
  }

  lemma Round0(v: State16)
    requires Columned(Rounds(v, ABC_WORDS, 0), V0())
    ensures Columned(Rounds(v, ABC_WORDS, 1), V1())
  {
    hide MixQuad, Turned, Columned, Round, Rounds, Sigma, ABC_WORDS, V0, W0, V1;
    Columns0();
    Diagonals0();
    WordAt0();
    AbcWords();
    RoundIs(Rounds(v, ABC_WORDS, 0), V0(), W0(), V1(), ABC_WORDS, 0);
    NextRound(v, 0);
  }

  lemma Columns1()
    ensures W1().q0 == MixQuad(V1().q0, 0, 0) && W1().q1 == MixQuad(V1().q1, 0, 0)
    ensures W1().q2 == MixQuad(V1().q2, 0, 0) && W1().q3 == MixQuad(V1().q3, 0, 0)
  {
  }

  lemma Diagonals1()
    ensures var u, v := Turned(W1()), Turned(V2());
            && v.q0 == MixQuad(u.q0, 0, 0) && v.q1 == MixQuad(u.q1, WORD, 0)
            && v.q2 == MixQuad(u.q2, 0, 0) && v.q3 == MixQuad(u.q3, 0, 0)
  {
  }

  lemma WordAt1()
    ensures var s := Sigma(1); s[10] == 0 && forall k: Index :: k != 10 ==> s[k] != 0
  {
  }

  lemma Round1(v: State16)
    requires Columned(Rounds(v, ABC_WORDS, 1), V1())
    ensures Columned(Rounds(v, ABC_WORDS, 2), V2())
  {
    hide MixQuad, Turned, Columned, Round, Rounds, Sigma, ABC_WORDS, V1, W1, V2;
    Columns1();
    Diagonals1();
    WordAt1();
    AbcWords();
    RoundIs(Rounds(v, ABC_WORDS, 1), V1(), W1(), V2(), ABC_WORDS, 1);
    NextRound(v, 1);
  }

  lemma Columns2()
    ensures W2().q0 == MixQuad(V2().q0, 0, 0) && W2().q1 == MixQuad(V2().q1, 0, WORD)
    ensures W2().q2 == MixQuad(V2().q2, 0, 0) && W2().q3 == MixQuad(V2().q3, 0, 0)
  {
  }

  lemma Diagonals2()
    ensures var u, v := Turned(W2()), Turned(V3());
            && v.q0 == MixQuad(u.q0, 0, 0) && v.q1 == MixQuad(u.q1, 0, 0)
            && v.q2 == MixQuad(u.q2, 0, 0) && v.q3 == MixQuad(u.q3, 0, 0)
  {
  }

  lemma WordAt2()
    ensures var s := Sigma(2); s[3] == 0 && forall k: Index :: k != 3 ==> s[k] != 0
  {
  }

  lemma Round2(v: State16)
    requires Columned(Rounds(v, ABC_WORDS, 2), V2())
    ensures Columned(Rounds(v, ABC_WORDS, 3), V3())
  {
    hide MixQuad, Turned, Columned, Round, Rounds, Sigma, ABC_WORDS, V2, W2, V3;
    Columns2();
    Diagonals2();
    WordAt2();
    AbcWords();
    RoundIs(Rounds(v, ABC_WORDS, 2), V2(), W2(), V3(), ABC_WORDS, 2);
    NextRound(v, 2);
  }

  lemma Columns3()
    ensures W3().q0 == MixQuad(V3().q0, 0, 0) && W3().q1 == MixQuad(V3().q1, 0, 0)
    ensures W3().q2 == MixQuad(V3().q2, 0, 0) && W3().q3 == MixQuad(V3().q3, 0, 0)
  {
  }

  lemma Diagonals3()
    ensures var u, v := Turned(W3()), Turned(V4());
            && v.q0 == MixQuad(u.q0, 0, 0) && v.q1 == MixQuad(u.q1, 0, 0)
            && v.q2 == MixQuad(u.q2, 0, WORD) && v.q3 == MixQuad(u.q3, 0, 0)
  {
  }

  lemma WordAt3()
    ensures var s := Sigma(3); s[13] == 0 && forall k: Index :: k != 13 ==> s[k] != 0
  {
  }

  lemma Round3(v: State16)
    requires Columned(Rounds(v, ABC_WORDS, 3), V3())
    ensures Columned(Rounds(v, ABC_WORDS, 4), V4())
  {
    hide MixQuad, Turned, Columned, Round, Rounds, Sigma, ABC_WORDS, V3, W3, V4;
    Columns3();
    Diagonals3();
    WordAt3();
    AbcWords();
    RoundIs(Rounds(v, ABC_WORDS, 3), V3(), W3(), V4(), ABC_WORDS, 3);
    NextRound(v, 3);
  }

  lemma Columns4()
    ensures W4().q0 == MixQuad(V4().q0, 0, WORD) && W4().q1 == MixQuad(V4().q1, 0, 0)
    ensures W4().q2 == MixQuad(V4().q2, 0, 0) && W4().q3 == MixQuad(V4().q3, 0, 0)
  {
  }

  lemma Diagonals4()
    ensures var u, v := Turned(W4()), Turned(V5());
            && v.q0 == MixQuad(u.q0, 0, 0) && v.q1 == MixQuad(u.q1, 0, 0)
            && v.q2 == MixQuad(u.q2, 0, 0) && v.q3 == MixQuad(u.q3, 0, 0)
  {
  }

  lemma WordAt4()
    ensures var s := Sigma(4); s[1] == 0 && forall k: Index :: k != 1 ==> s[k] != 0
  {
  }

  lemma Round4(v: State16)
    requires Columned(Rounds(v, ABC_WORDS, 4), V4())
    ensures Columned(Rounds(v, ABC_WORDS, 5), V5())
  {
    hide MixQuad, Turned, Columned, Round, Rounds, Sigma, ABC_WORDS, V4, W4, V5;
    Columns4();
    Diagonals4();
    WordAt4();
    AbcWords();
    RoundIs(Rounds(v, ABC_WORDS, 4), V4(), W4(), V5(), ABC_WORDS, 4);
    NextRound(v, 4);
  }

  lemma Columns5()
    ensures W5().q0 == MixQuad(V5().q0, 0, 0) && W5().q1 == MixQuad(V5().q1, 0, 0)
    ensures W5().q2 == MixQuad(V5().q2, WORD, 0) && W5().q3 == MixQuad(V5().q3, 0, 0)
  {
  }

  lemma Diagonals5()
    ensures var u, v := Turned(W5()), Turned(V6());
            && v.q0 == MixQuad(u.q0, 0, 0) && v.q1 == MixQuad(u.q1, 0, 0)
            && v.q2 == MixQuad(u.q2, 0, 0) && v.q3 == MixQuad(u.q3, 0, 0)
  {
  }

  lemma WordAt5()
    ensures var s := Sigma(5); s[4] == 0 && forall k: Index :: k != 4 ==> s[k] != 0
  {
  }

  lemma Round5(v: State16)
    requires Columned(Rounds(v, ABC_WORDS, 5), V5())
    ensures Columned(Rounds(v, ABC_WORDS, 6), V6())
  {
    hide MixQuad, Turned, Columned, Round, Rounds, Sigma, ABC_WORDS, V5, W5, V6;
    Columns5();
    Diagonals5();
    WordAt5();
    AbcWords();
    RoundIs(Rounds(v, ABC_WORDS, 5), V5(), W5(), V6(), ABC_WORDS, 5);
    NextRound(v, 5);
  }

  lemma Columns6()
    ensures W6().q0 == MixQuad(V6().q0, 0, 0) && W6().q1 == MixQuad(V6().q1, 0, 0)
    ensures W6().q2 == MixQuad(V6().q2, 0, 0) && W6().q3 == MixQuad(V6().q3, 0, 0)
  {
  }

  lemma Diagonals6()
    ensures var u, v := Turned(W6()), Turned(V7());
            && v.q0 == MixQuad(u.q0, WORD, 0) && v.q1 == MixQuad(u.q1, 0, 0)
            && v.q2 == MixQuad(u.q2, 0, 0) && v.q3 == MixQuad(u.q3, 0, 0)
  {
  }

  lemma WordAt6()
    ensures var s := Sigma(6); s[8] == 0 && forall k: Index :: k != 8 ==> s[k] != 0
  {
  }

  lemma Round6(v: State16)
    requires Columned(Rounds(v, ABC_WORDS, 6), V6())
    ensures Columned(Rounds(v, ABC_WORDS, 7), V7())
  {
    hide MixQuad, Turned, Columned, Round, Rounds, Sigma, ABC_WORDS, V6, W6, V7;
    Columns6();
    Diagonals6();
    WordAt6();
    AbcWords();
    RoundIs(Rounds(v, ABC_WORDS, 6), V6(), W6(), V7(), ABC_WORDS, 6);
    NextRound(v, 6);
  }

  lemma Columns7()
    ensures W7().q0 == MixQuad(V7().q0, 0, 0) && W7().q1 == MixQuad(V7().q1, 0, 0)
    ensures W7().q2 == MixQuad(V7().q2, 0, 0) && W7().q3 == MixQuad(V7().q3, 0, 0)
  {
  }

  lemma Diagonals7()
    ensures var u, v := Turned(W7()), Turned(V8());
            && v.q0 == MixQuad(u.q0, 0, WORD) && v.q1 == MixQuad(u.q1, 0, 0)
            && v.q2 == MixQuad(u.q2, 0, 0) && v.q3 == MixQuad(u.q3, 0, 0)
  {
  }

  lemma WordAt7()
    ensures var s := Sigma(7); s[9] == 0 && forall k: Index :: k != 9 ==> s[k] != 0
  {
  }

  lemma Round7(v: State16)
    requires Columned(Rounds(v, ABC_WORDS, 7), V7())
    ensures Columned(Rounds(v, ABC_WORDS, 8), V8())
  {
    hide MixQuad, Turned, Columned, Round, Rounds, Sigma, ABC_WORDS, V7, W7, V8;
    Columns7();
    Diagonals7();
    WordAt7();
    AbcWords();
    RoundIs(Rounds(v, ABC_WORDS, 7), V7(), W7(), V8(), ABC_WORDS, 7);
    NextRound(v, 7);
  }

  lemma Columns8()
    ensures W8().q0 == MixQuad(V8().q0, 0, 0) && W8().q1 == MixQuad(V8().q1, 0, 0)
    ensures W8().q2 == MixQuad(V8().q2, 0, 0) && W8().q3 == MixQuad(V8().q3, WORD, 0)
  {
  }

  lemma Diagonals8()
    ensures var u, v := Turned(W8()), Turned(V9());
            && v.q0 == MixQuad(u.q0, 0, 0) && v.q1 == MixQuad(u.q1, 0, 0)
            && v.q2 == MixQuad(u.q2, 0, 0) && v.q3 == MixQuad(u.q3, 0, 0)
  {
  }

  lemma WordAt8()
    ensures var s := Sigma(8); s[6] == 0 && forall k: Index :: k != 6 ==> s[k] != 0
  {
  }

  lemma Round8(v: State16)
    requires Columned(Rounds(v, ABC_WORDS, 8), V8())
    ensures Columned(Rounds(v, ABC_WORDS, 9), V9())
  {
    hide MixQuad, Turned, Columned, Round, Rounds, Sigma, ABC_WORDS, V8, W8, V9;
    Columns8();
    Diagonals8();
    WordAt8();
    AbcWords();
    RoundIs(Rounds(v, ABC_WORDS, 8), V8(), W8(), V9(), ABC_WORDS, 8);
    NextRound(v, 8);
  }

  lemma Columns9()
    ensures W9().q0 == MixQuad(V9().q0, 0, 0) && W9().q1 == MixQuad(V9().q1, 0, 0)
    ensures W9().q2 == MixQuad(V9().q2, 0, 0) && W9().q3 == MixQuad(V9().q3, 0, 0)
  {
  }

  lemma Diagonals9()
    ensures var u, v := Turned(W9()), Turned(V10());
            && v.q0 == MixQuad(u.q0, 0, 0) && v.q1 == MixQuad(u.q1, 0, 0)
            && v.q2 == MixQuad(u.q2, 0, 0) && v.q3 == MixQuad(u.q3, 0, WORD)
  {
  }

  lemma WordAt9()
    ensures var s := Sigma(9); s[15] == 0 && forall k: Index :: k != 15 ==> s[k] != 0
  {
  }

  lemma Round9(v: State16)
    requires Columned(Rounds(v, ABC_WORDS, 9), V9())
    ensures Columned(Rounds(v, ABC_WORDS, 10), V10())
  {
    hide MixQuad, Turned, Columned, Round, Rounds, Sigma, ABC_WORDS, V9, W9, V10;
    Columns9();
    Diagonals9();
    WordAt9();
    AbcWords();
    RoundIs(Rounds(v, ABC_WORDS, 9), V9(), W9(), V10(), ABC_WORDS, 9);
    NextRound(v, 9);
  }

  lemma Columns10()
    ensures W10().q0 == MixQuad(V10().q0, WORD, 0) && W10().q1 == MixQuad(V10().q1, 0, 0)
    ensures W10().q2 == MixQuad(V10().q2, 0, 0) && W10().q3 == MixQuad(V10().q3, 0, 0)
  {
  }

  lemma Diagonals10()
    ensures var u, v := Turned(W10()), Turned(V11());
            && v.q0 == MixQuad(u.q0, 0, 0) && v.q1 == MixQuad(u.q1, 0, 0)
            && v.q2 == MixQuad(u.q2, 0, 0) && v.q3 == MixQuad(u.q3, 0, 0)
  {
  }

  lemma WordAt10()
    ensures var s := Sigma(0); s[0] == 0 && forall k: Index :: k != 0 ==> s[k] != 0
  {
  }

  lemma Round10(v: State16)
    requires Columned(Rounds(v, ABC_WORDS, 10), V10())
    ensures Columned(Rounds(v, ABC_WORDS, 11), V11())
  {
    hide MixQuad, Turned, Columned, Round, Rounds, Sigma, ABC_WORDS, V10, W10, V11;
    Columns10();
    Diagonals10();
    WordAt10();
    AbcWords();
    RoundIs(Rounds(v, ABC_WORDS, 10), V10(), W10(), V11(), ABC_WORDS, 10);
    NextRound(v, 10);
  }

  lemma Columns11()
    ensures W11().q0 == MixQuad(V11().q0, 0, 0) && W11().q1 == MixQuad(V11().q1, 0, 0)
    ensures W11().q2 == MixQuad(V11().q2, 0, 0) && W11().q3 == MixQuad(V11().q3, 0, 0)
  {
  }

  lemma Diagonals11()
    ensures var u, v := Turned(W11()), Turned(V12());
            && v.q0 == MixQuad(u.q0, 0, 0) && v.q1 == MixQuad(u.q1, WORD, 0)
            && v.q2 == MixQuad(u.q2, 0, 0) && v.q3 == MixQuad(u.q3, 0, 0)
  {
  }

  lemma WordAt11()
    ensures var s := Sigma(1); s[10] == 0 && forall k: Index :: k != 10 ==> s[k] != 0
  {
  }

  lemma Round11(v: State16)
    requires Columned(Rounds(v, ABC_WORDS, 11), V11())
    ensures Columned(Rounds(v, ABC_WORDS, 12), V12())
  {
    hide MixQuad, Turned, Columned, Round, Rounds, Sigma, ABC_WORDS, V11, W11, V12;
    Columns11();
    Diagonals11();
    WordAt11();
    AbcWords();
    RoundIs(Rounds(v, ABC_WORDS, 11), V11(), W11(), V12(), ABC_WORDS, 11);
    NextRound(v, 11);
  }

  /** The working vector after the twelve rounds. */
  lemma AllRounds(v: State16)
    requires Columned(v, V0())
    ensures Columned(Rounds(v, ABC_WORDS, ROUND_COUNT), V12())
  {
    assert Rounds(v, ABC_WORDS, 0) == v;
    hide Rounds, Columned, V0, V12, ABC_WORDS;
    Round0(v);
    Round1(v);
    Round2(v);
    Round3(v);
    Round4(v);
    Round5(v);
    Round6(v);
    Round7(v);
    Round8(v);
    Round9(v);
    Round10(v);
    Round11(v);
  }

  // ----- the digest -----

  lemma InitialWords(h: State8, t: nat, f: bool)
    ensures var v := Initial(h, t, f);
            && (forall k :: 0 <= k < 8 ==> v[k] == h[k]) && (forall k :: 8 <= k < 12 ==> v[k] == IV[k - 8])
            && v[12] == Xor(IV[4], LowWord(t)) && v[13] == Xor(IV[5], HighWord(t))
            && v[14] == (if f then Xor(IV[6], 0xFFFF_FFFF_FFFF_FFFF) else IV[6]) && v[15] == IV[7]
  {
    hide Xor, LowWord, HighWord;
  }

  lemma StartWords()
    ensures InitialHash()[0] == 0x6A09E667F2BDC948 && forall k :: 1 <= k < 8 ==> InitialHash()[k] == IV[k]
    ensures Xor(IV[4], 3) == 0x510E527FADE682D2 && Xor(IV[5], 0) == 0x9B05688C2B3E6C1F
    ensures Xor(IV[6], 0xFFFF_FFFF_FFFF_FFFF) == 0xE07C265404BE4294
  {
  }

  lemma WordsOfThree()
    ensures LowWord(3) == 3 && HighWord(3) == 0
  {
    CounterParts(3, 3, 0);
  }

  /** The four words of a column, where they stand in the vector. */
  lemma WordsOfColumns(v: State16, x: Matrix)
    requires v[0] == x.q0.a && v[1] == x.q1.a && v[2] == x.q2.a && v[3] == x.q3.a
    requires v[4] == x.q0.b && v[5] == x.q1.b && v[6] == x.q2.b && v[7] == x.q3.b
    requires v[8] == x.q0.c && v[9] == x.q1.c && v[10] == x.q2.c && v[11] == x.q3.c
    requires v[12] == x.q0.d && v[13] == x.q1.d && v[14] == x.q2.d && v[15] == x.q3.d
    ensures Columned(v, x)
  {
  }

  lemma StartsAtV0()
    ensures Columned(Initial(InitialHash(), 3, true), V0())
  {
    InitialWords(InitialHash(), 3, true);
    StartWords();
    WordsOfThree();
    hide Initial, InitialHash, Xor, LowWord, HighWord, Columned;
    WordsOfColumns(Initial(InitialHash(), 3, true), V0());
  }

  /** The chain value after the only block. */
  const ABC_HASH: State8 := [
    0x0D4D1C983FA580BA, 0xE9F6129FB697276A, 0xB7C45A68142F214C, 0xD1A2FFDB6FBB124B,
    0x2D79AB2A39C5877D, 0x95CC3345DED552C2, 0x5A92F1DBA88AD318, 0x239900D4ED8623B9
  ]

  lemma FoldedWords()
    ensures Xor(Xor(InitialHash()[0], V12().q0.a), V12().q0.c) == ABC_HASH[0]
    ensures Xor(Xor(InitialHash()[1], V12().q1.a), V12().q1.c) == ABC_HASH[1]
    ensures Xor(Xor(InitialHash()[2], V12().q2.a), V12().q2.c) == ABC_HASH[2]
    ensures Xor(Xor(InitialHash()[3], V12().q3.a), V12().q3.c) == ABC_HASH[3]
    ensures Xor(Xor(InitialHash()[4], V12().q0.b), V12().q0.d) == ABC_HASH[4]
    ensures Xor(Xor(InitialHash()[5], V12().q1.b), V12().q1.d) == ABC_HASH[5]
    ensures Xor(Xor(InitialHash()[6], V12().q2.b), V12().q2.d) == ABC_HASH[6]
    ensures Xor(Xor(InitialHash()[7], V12().q3.b), V12().q3.d) == ABC_HASH[7]
  {
    StartWords();
    hide InitialHash;
  }

  lemma FoldedV12(v: State16)
    requires Columned(v, V12())
    ensures Fold(InitialHash(), v) == ABC_HASH
  {
    FoldedWords();
    FoldAt(InitialHash(), v);
    ColumnWords(v, 0, 4, 8, 12, V12().q0);
    ColumnWords(v, 1, 5, 9, 13, V12().q1);
    ColumnWords(v, 2, 6, 10, 14, V12().q2);
    ColumnWords(v, 3, 7, 11, 15, V12().q3);
    hide *;
    var r := Fold(InitialHash(), v);
    assert r[0] == ABC_HASH[0] && r[1] == ABC_HASH[1] && r[2] == ABC_HASH[2] && r[3] == ABC_HASH[3];
    assert r[4] == ABC_HASH[4] && r[5] == ABC_HASH[5] && r[6] == ABC_HASH[6] && r[7] == ABC_HASH[7];
  }

  lemma ColumnWords(v: State16, i: Index, j: Index, k: Index, l: Index, q: Quad)
    requires Holds(v, i, j, k, l, q)
    ensures v[i] == q.a && v[j] == q.b && v[k] == q.c && v[l] == q.d
  {
  }

  lemma FoldAt(h: State8, v: State16)
    ensures forall k :: 0 <= k < 8 ==> Fold(h, v)[k] == Xor(Xor(h[k], v[k]), v[k + 8])
  {
    hide Xor;
  }

  lemma AbcBlock()
    ensures DataBlock(ABC, 0) == ABC_WORDS
  {
    assert ABC[0..3] == ABC;
    var block := Pad(ABC);
    assert block[0..8] == [0x61, 0x62, 0x63, 0, 0, 0, 0, 0];
    assert Load([0x61, 0x62, 0x63, 0, 0, 0, 0, 0]) == WORD;
    assert Load([0, 0, 0, 0, 0, 0, 0, 0]) == 0;
    hide Load, Pad;
    forall k | 1 <= k < 16
      ensures Load(block[8 * k..8 * k + 8]) == 0
    {
      assert block[8 * k..8 * k + 8] == [0, 0, 0, 0, 0, 0, 0, 0];
    }
  }

  lemma AbcBytes()
    ensures Store(ABC_HASH[0]) == [0xBA, 0x80, 0xA5, 0x3F, 0x98, 0x1C, 0x4D, 0x0D]
    ensures Store(ABC_HASH[1]) == [0x6A, 0x27, 0x97, 0xB6, 0x9F, 0x12, 0xF6, 0xE9]
    ensures Store(ABC_HASH[2]) == [0x4C, 0x21, 0x2F, 0x14, 0x68, 0x5A, 0xC4, 0xB7]
    ensures Store(ABC_HASH[3]) == [0x4B, 0x12, 0xBB, 0x6F, 0xDB, 0xFF, 0xA2, 0xD1]
    ensures Store(ABC_HASH[4]) == [0x7D, 0x87, 0xC5, 0x39, 0x2A, 0xAB, 0x79, 0x2D]
    ensures Store(ABC_HASH[5]) == [0xC2, 0x52, 0xD5, 0xDE, 0x45, 0x33, 0xCC, 0x95]
    ensures Store(ABC_HASH[6]) == [0x18, 0xD3, 0x8A, 0xA8, 0xDB, 0xF1, 0x92, 0x5A]
    ensures Store(ABC_HASH[7]) == [0xB9, 0x23, 0x86, 0xED, 0xD4, 0x00, 0x99, 0x23]
  {
  }

  /** The digest of "abc", byte for byte. */
  lemma HashOfAbc()
    ensures Hash(ABC) ==
              [0xBA, 0x80, 0xA5, 0x3F, 0x98, 0x1C, 0x4D, 0x0D] +
              [0x6A, 0x27, 0x97, 0xB6, 0x9F, 0x12, 0xF6, 0xE9] +
              [0x4C, 0x21, 0x2F, 0x14, 0x68, 0x5A, 0xC4, 0xB7] +
              [0x4B, 0x12, 0xBB, 0x6F, 0xDB, 0xFF, 0xA2, 0xD1] +
              [0x7D, 0x87, 0xC5, 0x39, 0x2A, 0xAB, 0x79, 0x2D] +
              [0xC2, 0x52, 0xD5, 0xDE, 0x45, 0x33, 0xCC, 0x95] +
              [0x18, 0xD3, 0x8A, 0xA8, 0xDB, 0xF1, 0x92, 0x5A] +
              [0xB9, 0x23, 0x86, 0xED, 0xD4, 0x00, 0x99, 0x23]
  {
    hide Initial, Rounds, Fold, InitialHash, Columned, V0, V12, Store, DataBlock;
    StartsAtV0();
    AllRounds(Initial(InitialHash(), 3, true));
    FoldedV12(Rounds(Initial(InitialHash(), 3, true), ABC_WORDS, ROUND_COUNT));
    AbcBlock();
    AbcBytes();
  }
}
