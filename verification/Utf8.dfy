/** The hand-written UTF-8 encoder of the C library, against the syntax of section 4 of RFC 3629. */
module Utf8 {
  import opened Arithmetic
  import opened Bytes
  import opened Options

  type WChar = c: int | -0x8000_0000 <= c < 0x8000_0000

  // ----- the encoder, as a function -----

  function Unsigned(x: int): (u: int)
    ensures 0 <= u < 0x1_0000_0000
  {
    x % 0x1_0000_0000
  }

  predicate IsCodeUnit(wc: WChar) {
    Unsigned(Unsigned(wc) - 0xDF80) < 0x80
  }

  function Or(a: Byte, b: Byte): Byte {
    ((a as bv8) | (b as bv8)) as int
  }

  lemma OrTail(x: Byte)
    requires x < 0x40
    ensures Or(0x80, x) == 0x80 + x
  {
  }

  lemma OrLead2(x: Byte)
    requires x < 0x20
    ensures Or(0xC0, x) == 0xC0 + x
  {
  }

  lemma OrLead3(x: Byte)
    requires x < 0x10
    ensures Or(0xE0, x) == 0xE0 + x
  {
  }

  lemma OrLead4(x: Byte)
    requires x < 0x08
    ensures Or(0xF0, x) == 0xF0 + x
  {
  }

  lemma UnsignedBelow(wc: WChar, n: int)
    requires 0 <= n <= 0x8000_0000
    ensures Unsigned(wc) < n <==> 0 <= wc < n
  {
  }

  lemma UnsignedWindow(wc: WChar, lo: int, n: int)
    requires 0 <= lo <= lo + n <= 0x8000_0000
    ensures Unsigned(Unsigned(wc) - lo) < n <==> lo <= wc < lo + n
  {
  }

  /** A Unicode scalar value: a code point that is not a surrogate. */
  predicate IsScalar(x: int) {
    0 <= x < 0xD800 || 0xE000 <= x < 0x11_0000
  }

  /** The bytes for a scalar value, by the bit layout of section 3 of RFC 3629. */
  function Encode(x: int): (bytes: seq<Byte>)
    requires IsScalar(x)
    ensures 1 <= |bytes| <= 4
  {
    if x < 0x80 then [x]
    else if x < 0x800 then [0xC0 + x / 0x40, 0x80 + x % 0x40]
    else if x < 0x1_0000 then [0xE0 + x / 0x1000, 0x80 + x / 0x40 % 0x40, 0x80 + x % 0x40]
    else [0xF0 + x / 0x4_0000, 0x80 + x / 0x1000 % 0x40, 0x80 + x / 0x40 % 0x40, 0x80 + x % 0x40]
  }

  /** In single-byte mode bytes above 0x7F travel as the code units 0xDF80 .. 0xDFFF. */
  function SingleByteChar(b: Byte): WChar {
    if b < 0x80 then b else 0xDF00 + b
  }

  predicate IsSingleByteChar(wc: int) {
    0 <= wc < 0x80 || 0xDF80 <= wc < 0xE000
  }

  // ----- the code -----

  const EILSEQ_RETURN: int := -1

  /** What a call with a non-null buffer returns and leaves in the buffer: the encoding at its front and
      the rest as it was, or an error and nothing changed. */
  ghost predicate Outcome(before: seq<Byte>, after: seq<Byte>, wc: WChar, mbCurMax: nat, r: int, eilseq: bool)
    requires |before| == |after| > 0 && (mbCurMax == 1 || |after| >= 4)
  {
    if mbCurMax == 1 then
      if IsSingleByteChar(wc) then !eilseq && r == 1 && SingleByteChar(after[0]) == wc && after[1..] == before[1..]
      else eilseq && r == EILSEQ_RETURN && after == before
    else
      if IsScalar(wc) then !eilseq && r == |Encode(wc)| && after == Encode(wc) + before[|Encode(wc)|..]
      else eilseq && r == EILSEQ_RETURN && after == before
  }

  method Wcrtomb(s: array?<Byte>, wc: WChar, mbCurMax: nat) returns (r: int, eilseq: bool)
    requires mbCurMax == 1 || mbCurMax >= 4
    requires s != null ==> s.Length >= mbCurMax
    modifies s
    ensures s == null ==> r == 1 && !eilseq
    ensures s != null ==> Outcome(old(s[..]), s[..], wc, mbCurMax, r, eilseq)
  {
    hide Or, Unsigned;
    UnsignedBelow(wc, 0x80);
    UnsignedBelow(wc, 0x800);
    UnsignedBelow(wc, 0xD800);
    UnsignedWindow(wc, 0xDF80, 0x80);
    UnsignedWindow(wc, 0xE000, 0x2000);
    UnsignedWindow(wc, 0x1_0000, 0x10_0000);
    eilseq := false;
    if s == null {
      return 1, false;
    }
    var p := 0;
    if Unsigned(wc) < 0x80 {
      s[p] := wc;
      assert SingleByteChar(s[0]) == wc;
      return 1, false;
    } else if mbCurMax == 1 {
      if !IsCodeUnit(wc) {
        return EILSEQ_RETURN, true;
      }
      s[p] := wc % 0x100;
      assert SingleByteChar(s[0]) == wc;
      return 1, false;
    } else if Unsigned(wc) < 0x800 {
      OrLead2(wc / 0x40);
      OrTail(wc % 0x40);
      s[p] := Or(0xC0, wc / 0x40);
      p := p + 1;
      s[p] := Or(0x80, wc % 0x40);
      return 2, false;
    } else if Unsigned(wc) < 0xD800 || Unsigned(Unsigned(wc) - 0xE000) < 0x2000 {
      OrLead3(wc / 0x1000);
      OrTail(wc / 0x40 % 0x40);
      OrTail(wc % 0x40);
      s[p] := Or(0xE0, wc / 0x1000);
      p := p + 1;
      s[p] := Or(0x80, wc / 0x40 % 0x40);
      p := p + 1;
      s[p] := Or(0x80, wc % 0x40);
      return 3, false;
    } else if Unsigned(Unsigned(wc) - 0x1_0000) < 0x10_0000 {
      OrLead4(wc / 0x4_0000);
      OrTail(wc / 0x1000 % 0x40);
      OrTail(wc / 0x40 % 0x40);
      OrTail(wc % 0x40);
      s[p] := Or(0xF0, wc / 0x4_0000);
      p := p + 1;
      s[p] := Or(0x80, wc / 0x1000 % 0x40);
      p := p + 1;
      s[p] := Or(0x80, wc / 0x40 % 0x40);
      p := p + 1;
      s[p] := Or(0x80, wc % 0x40);
      return 4, false;
    }
    return EILSEQ_RETURN, true;
  }

  method Wctomb(s: array?<Byte>, wc: WChar, mbCurMax: nat) returns (r: int, eilseq: bool)
    requires mbCurMax == 1 || mbCurMax >= 4
    requires s != null ==> s.Length >= mbCurMax
    modifies s
    ensures s == null ==> r == 0 && !eilseq
    ensures s != null ==> Outcome(old(s[..]), s[..], wc, mbCurMax, r, eilseq)
  {
    if s == null {
      return 0, false;
    }
    r, eilseq := Wcrtomb(s, wc, mbCurMax);
  }

  /** Single-byte mode accepts exactly the 256 characters that stand for one byte each. */
  lemma SingleByteModeIsBijective(wc: WChar)
    ensures IsSingleByteChar(wc) <==> exists b: Byte :: SingleByteChar(b) == wc
    ensures forall b: Byte, c: Byte :: SingleByteChar(b) == SingleByteChar(c) ==> b == c
  {
    if IsSingleByteChar(wc) {
      assert SingleByteChar(wc % 0x100) == wc;
    }
  }

  // ----- the standard's decoder -----

  predicate IsTail(b: Byte) {
    0x80 <= b <= 0xBF
  }

  /** The length of the UTF8-char at the front of b by the syntax of section 4 of RFC 3629, 0 if there is none. */
  function CharLength(b: seq<Byte>): (n: nat)
    ensures n <= 4 && n <= |b|
  {
    if |b| >= 1 && b[0] <= 0x7F then 1
    else if |b| >= 2 && 0xC2 <= b[0] <= 0xDF && IsTail(b[1]) then 2
    else if |b| >= 3 && IsTail(b[2]) &&
            (|| (b[0] == 0xE0 && 0xA0 <= b[1] <= 0xBF)
             || (0xE1 <= b[0] <= 0xEC && IsTail(b[1]))
             || (b[0] == 0xED && 0x80 <= b[1] <= 0x9F)
             || (0xEE <= b[0] <= 0xEF && IsTail(b[1]))) then 3
    else if |b| >= 4 && IsTail(b[2]) && IsTail(b[3]) &&
            (|| (b[0] == 0xF0 && 0x90 <= b[1] <= 0xBF)
             || (0xF1 <= b[0] <= 0xF3 && IsTail(b[1]))
             || (b[0] == 0xF4 && 0x80 <= b[1] <= 0x8F)) then 4
    else 0
  }

  /** The character number a UTF8-char of that length carries. */
  function CharNumber(b: seq<Byte>): int
    requires CharLength(b) > 0
  {
    var lead: int := b[0];
    match CharLength(b)
    case 1 => lead
    case 2 => (lead - 0xC0) * 0x40 + Tail(b, 1)
    case 3 => ((lead - 0xE0) * 0x40 + Tail(b, 1)) * 0x40 + Tail(b, 2)
    case _ => (((lead - 0xF0) * 0x40 + Tail(b, 1)) * 0x40 + Tail(b, 2)) * 0x40 + Tail(b, 3)
  }

  function Tail(b: seq<Byte>, k: nat): int
    requires k < |b|
  {
    var byte: int := b[k];
    byte - 0x80
  }

  function Decode(b: seq<Byte>): Option<seq<int>> {
    if b == [] then Some([])
    else if CharLength(b) == 0 then None
    else match Decode(b[CharLength(b)..])
         case None => None
         case Some(rest) => Some([CharNumber(b)] + rest)
  }

  function EncodeAll(xs: seq<int>): seq<Byte>
    requires forall x :: x in xs ==> IsScalar(x)
  {
    if xs == [] then [] else Encode(xs[0]) + EncodeAll(xs[1..])
  }

  // ----- one character -----

  function Low(x: int): int { x % 0x40 }

  function Mid(x: int): int { x / 0x40 % 0x40 }

  function High(x: int): int { x / 0x1000 % 0x40 }

  function Top(x: int): int { x / 0x4_0000 }

  lemma DivisionBySteps(x: int)
    ensures x / 0x1000 == x / 0x40 / 0x40 && x / 0x4_0000 == x / 0x40 / 0x40 / 0x40
  {
    var q1 := x / 0x40;
    var q2 := q1 / 0x40;
    RemainderUnique(x, 0x1000, q2, 0x40 * (q1 % 0x40) + x % 0x40);
    RemainderUnique(x, 0x4_0000, q2 / 0x40, 0x1000 * (q2 % 0x40) + 0x40 * (q1 % 0x40) + x % 0x40);
  }

  /** A number is the value of its six-bit digits. */
  lemma SixBitDigits(x: int)
    requires 0 <= x < 0x100_0000
    ensures x == ((Top(x) * 0x40 + High(x)) * 0x40 + Mid(x)) * 0x40 + Low(x)
    ensures 0 <= Low(x) < 0x40 && 0 <= Mid(x) < 0x40 && 0 <= High(x) < 0x40 && 0 <= Top(x) < 0x40
  {
    DivisionBySteps(x);
  }

  /** ... and has no other six-bit digits. */
  lemma SixBitDigitsUnique(d3: int, d2: int, d1: int, d0: int)
    requires 0 <= d0 < 0x40 && 0 <= d1 < 0x40 && 0 <= d2 < 0x40 && 0 <= d3 < 0x40
    ensures var x := ((d3 * 0x40 + d2) * 0x40 + d1) * 0x40 + d0;
            Low(x) == d0 && Mid(x) == d1 && High(x) == d2 && Top(x) == d3
  {
    var x2 := d3 * 0x40 + d2;
    var x1 := x2 * 0x40 + d1;
    var x := x1 * 0x40 + d0;
    RemainderUnique(x, 0x40, x1, d0);
    RemainderUnique(x1, 0x40, x2, d1);
    RemainderUnique(x2, 0x40, d3, d2);
    DivisionBySteps(x);
  }

  lemma EncodeByDigits(x: int)
    requires IsScalar(x)
    ensures Encode(x) == if x < 0x80 then [x]
                         else if x < 0x800 then [0xC0 + Mid(x), 0x80 + Low(x)]
                         else if x < 0x1_0000 then [0xE0 + High(x), 0x80 + Mid(x), 0x80 + Low(x)]
                         else [0xF0 + Top(x), 0x80 + High(x), 0x80 + Mid(x), 0x80 + Low(x)]
  {
    if x < 0x800 {
      RemainderUnique(x / 0x40, 0x40, 0, x / 0x40);
    } else if x < 0x1_0000 {
      RemainderUnique(x / 0x1000, 0x40, 0, x / 0x1000);
    }
  }

  /** What was encoded is decoded, whatever follows it; so no encoding is a prefix of another. */
  lemma DecodeEncoded(x: int, rest: seq<Byte>)
    requires IsScalar(x)
    ensures CharLength(Encode(x) + rest) == |Encode(x)|
    ensures CharNumber(Encode(x) + rest) == x
  {
    hide Encode, Low, Mid, High, Top;
    EncodeByDigits(x);
    SixBitDigits(x);
  }

  lemma DecodedTwo(b: seq<Byte>)
    requires CharLength(b) == 2
    ensures IsScalar(CharNumber(b)) && Encode(CharNumber(b)) == b[..2]
  {
    hide Encode, Low, Mid, High, Top;
    SixBitDigitsUnique(0, 0, b[0] - 0xC0, Tail(b, 1));
    EncodeByDigits(CharNumber(b));
  }

  lemma DecodedThree(b: seq<Byte>)
    requires CharLength(b) == 3
    ensures IsScalar(CharNumber(b)) && Encode(CharNumber(b)) == b[..3]
  {
    hide Encode, Low, Mid, High, Top;
    SixBitDigitsUnique(0, b[0] - 0xE0, Tail(b, 1), Tail(b, 2));
    EncodeByDigits(CharNumber(b));
  }

  lemma DecodedFour(b: seq<Byte>)
    requires CharLength(b) == 4
    ensures IsScalar(CharNumber(b)) && Encode(CharNumber(b)) == b[..4]
  {
    hide Encode, Low, Mid, High, Top;
    SixBitDigitsUnique(b[0] - 0xF0, Tail(b, 1), Tail(b, 2), Tail(b, 3));
    EncodeByDigits(CharNumber(b));
  }

  /** The standard's decoder accepts only encodings of scalar values. */
  lemma EncodeDecoded(b: seq<Byte>)
    requires CharLength(b) > 0
    ensures IsScalar(CharNumber(b))
    ensures Encode(CharNumber(b)) == b[..CharLength(b)]
  {
    if CharLength(b) == 1 {
      assert b[..1] == [b[0]];
    } else {
      hide Encode, CharNumber;
      match CharLength(b) {
        case 2 => DecodedTwo(b);
        case 3 => DecodedThree(b);
        case _ => DecodedFour(b);
      }
    }
  }

  // ----- sequences of characters -----

  /** Encoding and then decoding any sequence of scalar values gives it back. */
  lemma {:induction false} DecodeEncodeAll(xs: seq<int>)
    requires forall x :: x in xs ==> IsScalar(x)
    ensures Decode(EncodeAll(xs)) == Some(xs)
  {
    hide Encode, CharLength, CharNumber;
    if xs != [] {
      var rest := EncodeAll(xs[1..]);
      DecodeEncoded(xs[0], rest);
      DecodeEncodeAll(xs[1..]);
      assert EncodeAll(xs)[|Encode(xs[0])|..] == rest;
      assert [xs[0]] + xs[1..] == xs;
    }
  }

  /** Whatever the decoder accepts is the encoding of what it returns, so no character has two encodings. */
  lemma {:induction false} EncodeAllDecode(b: seq<Byte>)
    requires Decode(b).Some?
    ensures forall x :: x in Decode(b).value ==> IsScalar(x)
    ensures EncodeAll(Decode(b).value) == b
  {
    hide Encode, CharLength, CharNumber;
    if b != [] {
      var n := CharLength(b);
      EncodeDecoded(b);
      EncodeAllDecode(b[n..]);
      var xs := Decode(b).value;
      assert xs == [CharNumber(b)] + Decode(b[n..]).value;
      assert xs[1..] == Decode(b[n..]).value;
      assert b == b[..n] + b[n..];
    }
  }

  // ----- order -----

  /** Dictionary order on sequences of numbers. */
  predicate Before(a: seq<int>, b: seq<int>) {
    b != [] && (a == [] || a[0] < b[0] || (a[0] == b[0] && Before(a[1..], b[1..])))
  }

  /** The sequences agree below k, where a is smaller. */
  ghost predicate SplitAt(a: seq<Byte>, b: seq<Byte>, k: nat) {
    k < |a| && k < |b| && a[..k] == b[..k] && a[k] < b[k]
  }

  lemma {:induction false} SplitIsBefore(a: seq<Byte>, b: seq<Byte>, k: nat)
    requires SplitAt(a, b, k)
    ensures Before(a, b) && !Before(b, a)
  {
    if k > 0 {
      assert a[0] == a[..k][0] == b[..k][0] == b[0];
      assert a[1..][..k - 1] == a[..k][1..] == b[..k][1..] == b[1..][..k - 1];
      SplitIsBefore(a[1..], b[1..], k - 1);
    }
  }

  lemma {:induction false} BeforeCommonPrefix(p: seq<int>, a: seq<int>, b: seq<int>)
    ensures Before(p + a, p + b) <==> Before(a, b)
  {
    if p == [] {
      assert p + a == a && p + b == b;
    } else {
      BeforeCommonPrefix(p[1..], a, b);
      assert (p + a)[1..] == p[1..] + a && (p + b)[1..] == p[1..] + b;
    }
  }

  /** Encodings of different characters split at some byte, in the order of the characters. */
  lemma EncodingsSplit(x: int, y: int) returns (k: nat)
    requires IsScalar(x) && IsScalar(y) && x < y
    ensures SplitAt(Encode(x), Encode(y), k)
  {
    hide Encode, Low, Mid, High, Top;
    SixBitDigits(x);
    SixBitDigits(y);
    EncodeByDigits(x);
    EncodeByDigits(y);
    var a, b := Encode(x), Encode(y);
    if |a| != |b| || a[0] != b[0] {
      k := 0;
    } else if a[1] != b[1] {
      k := 1;
    } else if a[2] != b[2] {
      k := 2;
    } else {
      k := 3;
    }
  }

  /** Comparing encodings byte by byte compares the texts character by character. */
  lemma {:induction false} EncodingKeepsOrder(xs: seq<int>, ys: seq<int>)
    requires forall x :: x in xs ==> IsScalar(x)
    requires forall y :: y in ys ==> IsScalar(y)
    ensures Before(EncodeAll(xs), EncodeAll(ys)) <==> Before(xs, ys)
  {
    if xs != [] && ys != [] {
      var r, s := EncodeAll(xs[1..]), EncodeAll(ys[1..]);
      if xs[0] == ys[0] {
        BeforeCommonPrefix(Encode(xs[0]), r, s);
        EncodingKeepsOrder(xs[1..], ys[1..]);
      } else if xs[0] < ys[0] {
        var k := EncodingsSplit(xs[0], ys[0]);
        SplitExtends(Encode(xs[0]), Encode(ys[0]), k, r, s);
      } else {
        var k := EncodingsSplit(ys[0], xs[0]);
        SplitExtends(Encode(ys[0]), Encode(xs[0]), k, s, r);
      }
    }
  }

  lemma SplitExtends(a: seq<Byte>, b: seq<Byte>, k: nat, r: seq<Byte>, s: seq<Byte>)
    requires SplitAt(a, b, k)
    ensures Before(a + r, b + s) && !Before(b + s, a + r)
  {
    assert (a + r)[..k] == a[..k] && (b + s)[..k] == b[..k];
    SplitIsBefore(a + r, b + s, k);
  }

  // ----- the examples of section 7 of RFC 3629 -----

  lemma RfcExamples()
    ensures Encode(0x41) == [0x41] && Encode(0x2262) == [0xE2, 0x89, 0xA2] && Encode(0x0391) == [0xCE, 0x91]
    ensures Encode(0xD55C) == [0xED, 0x95, 0x9C] && Encode(0x65E5) == [0xE6, 0x97, 0xA5]
    ensures Encode(0xFEFF) == [0xEF, 0xBB, 0xBF] && Encode(0x233B4) == [0xF0, 0xA3, 0x8E, 0xB4]
  {
  }
}
