/** Standard base64 with padding (section 4 of RFC 4648), as decoded by Go's
    `base64.StdEncoding.DecodeString`: carriage returns and line feeds are skipped,
    the input must consist of whole four-character quanta, and `=` may only pad the
    last quantum. Like Go's non-strict decoder, the unused low bits of a padded final
    quantum are dropped rather than checked.

    Characters are first classified into symbols (a 6-bit digit or the pad), and the
    quanta are then decoded from symbols, so that the bit arithmetic and the alphabet
    are dealt with separately. */
module Base64 {
  import opened Wrappers
  import opened Bytes

  type Sextet = v: nat | v < 64

  /** One character of an encoding, by meaning. */
  datatype Symbol = Digit(value: Sextet) | Pad

  const PadChar: char := '='

  /** The 64 characters of the standard alphabet (RFC 4648, section 4, table 1). */
  predicate IsAlphabetChar(c: char) {
    'A' <= c <= 'Z' || 'a' <= c <= 'z' || '0' <= c <= '9' || c == '+' || c == '/'
  }

  predicate IsLineBreak(c: char) { c == '\n' || c == '\r' }

  /** The character that encodes value `v`. */
  function CharOf(v: Sextet): (c: char)
    ensures IsAlphabetChar(c)
  {
    if v < 26 then ('A' as int + v) as char
    else if v < 52 then ('a' as int + v - 26) as char
    else if v < 62 then ('0' as int + v - 52) as char
    else if v == 62 then '+'
    else '/'
  }

  /** The value an alphabet character encodes. */
  function ValueOf(c: char): (v: Sextet)
    requires IsAlphabetChar(c)
  {
    if 'A' <= c <= 'Z' then c as int - 'A' as int
    else if 'a' <= c <= 'z' then c as int - 'a' as int + 26
    else if '0' <= c <= '9' then c as int - '0' as int + 52
    else if c == '+' then 62
    else 63
  }

  /** `ValueOf` undoes `CharOf`. */
  lemma ValueOfCharOf(v: Sextet)
    ensures ValueOf(CharOf(v)) == v
  {
  }

  /** The meaning of one character; `None` for a character that cannot occur. */
  function SymbolOf(c: char): (s: Option<Symbol>)
    ensures s.Some? <==> IsAlphabetChar(c) || c == PadChar
  {
    if IsAlphabetChar(c) then Some(Digit(ValueOf(c)))
    else if c == PadChar then Some(Pad)
    else None
  }

  function CharOfSymbol(s: Symbol): (c: char)
    ensures SymbolOf(c) == Some(s)
  {
    match s
    case Digit(v) => ValueOfCharOf(v); CharOf(v)
    case Pad => PadChar
  }

  /** The symbols of `s`, or `None` if some character is neither a digit nor the pad. */
  function Symbols(s: string): (r: Option<seq<Symbol>>)
    ensures r.Some? <==> forall i | 0 <= i < |s| :: IsAlphabetChar(s[i]) || s[i] == PadChar
    ensures r.Some? ==> |r.value| == |s|
    ensures r.Some? ==> forall i | 0 <= i < |s| :: SymbolOf(s[i]) == Some(r.value[i])
  {
    if forall i | 0 <= i < |s| :: SymbolOf(s[i]).Some?
    then Some(seq(|s|, i requires 0 <= i < |s| => SymbolOf(s[i]).value))
    else None
  }

  /** The characters that spell a sequence of symbols. */
  function Render(syms: seq<Symbol>): (s: string)
    ensures |s| == |syms|
  {
    seq(|syms|, i requires 0 <= i < |syms| => CharOfSymbol(syms[i]))
  }

  /** Reading the characters of rendered symbols gives the symbols back. */
  lemma SymbolsOfRender(syms: seq<Symbol>)
    ensures Symbols(Render(syms)) == Some(syms)
  {
    var s := Render(syms);
    assert forall i | 0 <= i < |s| :: SymbolOf(s[i]) == Some(syms[i]);
    assert forall i | 0 <= i < |s| :: SymbolOf(s[i]).Some?;
    var r := seq(|s|, i requires 0 <= i < |s| => SymbolOf(s[i]).value);
    assert r == syms;
  }

  // Three bytes x y z are cut into four sextets ...
  function Sextet0(x: Byte): Sextet { x / 4 }
  function Sextet1(x: Byte, y: Byte): Sextet { (x % 4) * 16 + y / 16 }
  function Sextet2(y: Byte, z: Byte): Sextet { (y % 16) * 4 + z / 64 }
  function Sextet3(z: Byte): Sextet { z % 64 }

  // ... and four sextets a b c d are glued back into three bytes.
  function Byte0(a: Sextet, b: Sextet): Byte { a * 4 + b / 16 }
  function Byte1(b: Sextet, c: Sextet): Byte { (b % 16) * 16 + c / 4 }
  function Byte2(c: Sextet, d: Sextet): Byte { (c % 4) * 64 + d }

  lemma SplitDigit16(hi: nat, lo: nat)
    requires lo < 16
    ensures (hi * 16 + lo) / 16 == hi && (hi * 16 + lo) % 16 == lo
  {
  }

  lemma SplitDigit4(hi: nat, lo: nat)
    requires lo < 4
    ensures (hi * 4 + lo) / 4 == hi && (hi * 4 + lo) % 4 == lo
  {
  }

  /** Gluing the sextets of three bytes gives the bytes back. */
  lemma GlueCut(x: Byte, y: Byte, z: Byte)
    ensures Byte0(Sextet0(x), Sextet1(x, y)) == x
    ensures Byte1(Sextet1(x, y), Sextet2(y, z)) == y
    ensures Byte2(Sextet2(y, z), Sextet3(z)) == z
  {
    SplitDigit16(x % 4, y / 16);
    SplitDigit4(y % 16, z / 64);
  }

  /** A quantum that is not the last one: four digits, no padding. */
  function DecodeInner(a: Symbol, b: Symbol, c: Symbol, d: Symbol): (r: Option<seq<Byte>>)
    ensures r.Some? <==> a.Digit? && b.Digit? && c.Digit? && d.Digit?
  {
    if a.Digit? && b.Digit? && c.Digit? && d.Digit?
    then Some([Byte0(a.value, b.value), Byte1(b.value, c.value), Byte2(c.value, d.value)])
    else None
  }

  /** The last quantum: four digits give three bytes, three digits and a pad two, two
      digits and two pads one; anything else fails. Bits beyond the last byte are dropped. */
  function DecodeLast(a: Symbol, b: Symbol, c: Symbol, d: Symbol): (r: Option<seq<Byte>>)
    ensures r.Some? ==> 1 <= |r.value| <= 3 && a.Digit? && b.Digit?
    ensures r.Some? && |r.value| == 3 <==> DecodeInner(a, b, c, d).Some?
  {
    match (a, b, c, d)
    case (Digit(va), Digit(vb), Digit(vc), Digit(vd)) => Some([Byte0(va, vb), Byte1(vb, vc), Byte2(vc, vd)])
    case (Digit(va), Digit(vb), Digit(vc), Pad) => Some([Byte0(va, vb), Byte1(vb, vc)])
    case (Digit(va), Digit(vb), Pad, Pad) => Some([Byte0(va, vb)])
    case _ => None
  }

  /** Decodes whole quanta of symbols. */
  function DecodeSymbols(s: seq<Symbol>): (r: Option<seq<Byte>>)
    decreases |s|
  {
    if |s| == 0 then Some([])
    else if |s| < 4 then None
    else if |s| == 4 then DecodeLast(s[0], s[1], s[2], s[3])
    else match DecodeInner(s[0], s[1], s[2], s[3])
      case None => None
      case Some(head) =>
        var rest := DecodeSymbols(s[4..]);
        if rest.None? then None else Some(head + rest.value)
  }

  /** Only whole quanta decode. */
  lemma {:induction false} DecodeSymbolsWholeQuanta(s: seq<Symbol>)
    ensures DecodeSymbols(s).Some? ==> |s| % 4 == 0
    decreases |s|
  {
    if |s| > 4 {
      DecodeSymbolsWholeQuanta(s[4..]);
    }
  }

  /** `s` with every carriage return and line feed removed (what else is kept is
      stated by `StripLineBreaksFree` and `StripLineBreaksKeeps`). */
  function StripLineBreaks(s: string): (r: string)
    ensures |r| <= |s|
    ensures forall i | 0 <= i < |r| :: !IsLineBreak(r[i])
    decreases |s|
  {
    if |s| == 0 then []
    else if IsLineBreak(s[0]) then StripLineBreaks(s[1..])
    else [s[0]] + StripLineBreaks(s[1..])
  }

  /** `base64.StdEncoding.DecodeString(s)`: `None` is a non-nil error. Whatever decodes
      has, line breaks aside, the length of the encoding of its bytes and padding in the
      same places. */
  function Decode(s: string): (r: Option<seq<Byte>>)
    ensures r.Some? ==> |StripLineBreaks(s)| == |Encode(r.value)|
    ensures r.Some? ==> forall i | 0 <= i < |StripLineBreaks(s)| ::
      StripLineBreaks(s)[i] == PadChar <==> Encode(r.value)[i] == PadChar
  {
    match Symbols(StripLineBreaks(s))
    case None => None
    case Some(syms) =>
      var r := DecodeSymbols(syms);
      if r.None? then None
      else
        DecodeShape(StripLineBreaks(s), syms, r.value);
        r
  }

  /** The symbols that encode a byte string: whole quanta, then a padded tail. */
  function EncodeSymbols(b: seq<Byte>): (r: seq<Symbol>)
    ensures |r| == 4 * ((|b| + 2) / 3)
    decreases |b|
  {
    if |b| == 0 then []
    else if |b| == 1 then [Digit(Sextet0(b[0])), Digit(Sextet1(b[0], 0)), Pad, Pad]
    else if |b| == 2 then [Digit(Sextet0(b[0])), Digit(Sextet1(b[0], b[1])), Digit(Sextet2(b[1], 0)), Pad]
    else Quantum(b[0], b[1], b[2]) + EncodeSymbols(b[3..])
  }

  /** `base64.StdEncoding.EncodeToString(b)`. */
  function Encode(b: seq<Byte>): (r: string)
    ensures |r| == 4 * ((|b| + 2) / 3)
  {
    Render(EncodeSymbols(b))
  }

  /** The four symbols of three whole bytes. */
  function Quantum(x: Byte, y: Byte, z: Byte): seq<Symbol> {
    [Digit(Sextet0(x)), Digit(Sextet1(x, y)), Digit(Sextet2(y, z)), Digit(Sextet3(z))]
  }

  lemma DecodeSymbolsStep(q: seq<Symbol>, rest: seq<Symbol>, head: seq<Byte>, tail: seq<Byte>)
    requires |q| == 4 && |rest| > 0
    requires DecodeInner(q[0], q[1], q[2], q[3]) == Some(head)
    requires DecodeSymbols(rest) == Some(tail)
    ensures DecodeSymbols(q + rest) == Some(head + tail)
  {
    var s := q + rest;
    assert s[4..] == rest;
    assert s[0] == q[0] && s[1] == q[1] && s[2] == q[2] && s[3] == q[3];
  }

  lemma DecodeSymbolsOne(s: seq<Symbol>)
    requires |s| == 4
    ensures DecodeSymbols(s) == DecodeLast(s[0], s[1], s[2], s[3])
  {
  }

  // The value of each kind of final quantum, on arbitrary digits.
  lemma DecodeFourDigits(a: Sextet, b: Sextet, c: Sextet, d: Sextet)
    ensures DecodeInner(Digit(a), Digit(b), Digit(c), Digit(d)) == Some([Byte0(a, b), Byte1(b, c), Byte2(c, d)])
    ensures DecodeLast(Digit(a), Digit(b), Digit(c), Digit(d)) == Some([Byte0(a, b), Byte1(b, c), Byte2(c, d)])
  {
  }

  lemma DecodeThreeDigits(a: Sextet, b: Sextet, c: Sextet)
    ensures DecodeLast(Digit(a), Digit(b), Digit(c), Pad) == Some([Byte0(a, b), Byte1(b, c)])
  {
  }

  lemma DecodeTwoDigits(a: Sextet, b: Sextet)
    ensures DecodeLast(Digit(a), Digit(b), Pad, Pad) == Some([Byte0(a, b)])
  {
  }

  lemma DecodeQuantum(x: Byte, y: Byte, z: Byte)
    ensures var q := Quantum(x, y, z);
      DecodeInner(q[0], q[1], q[2], q[3]) == Some([x, y, z]) &&
      DecodeLast(q[0], q[1], q[2], q[3]) == Some([x, y, z])
  {
    DecodeFourDigits(Sextet0(x), Sextet1(x, y), Sextet2(y, z), Sextet3(z));
    GlueCut(x, y, z);
  }

  lemma EncodeSymbolsOneByte(b: seq<Byte>)
    requires |b| == 1
    ensures EncodeSymbols(b) == [Digit(Sextet0(b[0])), Digit(Sextet1(b[0], 0)), Pad, Pad]
  {
  }

  lemma EncodeSymbolsTwoBytes(b: seq<Byte>)
    requires |b| == 2
    ensures EncodeSymbols(b) == [Digit(Sextet0(b[0])), Digit(Sextet1(b[0], b[1])), Digit(Sextet2(b[1], 0)), Pad]
  {
  }

  lemma EncodeSymbolsLong(b: seq<Byte>)
    requires |b| >= 3
    ensures EncodeSymbols(b) == Quantum(b[0], b[1], b[2]) + EncodeSymbols(b[3..])
  {
  }

  lemma DecodeOneByte(x: Byte, s: seq<Symbol>)
    requires s == [Digit(Sextet0(x)), Digit(Sextet1(x, 0)), Pad, Pad]
    ensures DecodeSymbols(s) == Some([x])
  {
    DecodeSymbolsOne(s);
    DecodeTwoDigits(Sextet0(x), Sextet1(x, 0));
    GlueCut(x, 0, 0);
  }

  lemma DecodeEncodeOne(b: seq<Byte>)
    requires |b| == 1
    ensures DecodeSymbols(EncodeSymbols(b)) == Some(b)
  {
    EncodeSymbolsOneByte(b);
    DecodeOneByte(b[0], EncodeSymbols(b));
    assert b == [b[0]];
  }

  lemma DecodeEncodeTwo(b: seq<Byte>)
    requires |b| == 2
    ensures DecodeSymbols(EncodeSymbols(b)) == Some(b)
  {
    var x, y := b[0], b[1];
    EncodeSymbolsTwoBytes(b);
    DecodeSymbolsOne(EncodeSymbols(b));
    DecodeThreeDigits(Sextet0(x), Sextet1(x, y), Sextet2(y, 0));
    GlueCut(x, y, 0);
    assert b == [x, y];
  }

  lemma DecodeEncodeThree(b: seq<Byte>)
    requires |b| == 3
    ensures DecodeSymbols(EncodeSymbols(b)) == Some(b)
  {
    EncodeSymbolsLong(b);
    assert EncodeSymbols(b[3..]) == [];
    var q := Quantum(b[0], b[1], b[2]);
    assert EncodeSymbols(b) == q + [] == q;
    DecodeSymbolsOne(q);
    DecodeQuantum(b[0], b[1], b[2]);
    assert b == [b[0], b[1], b[2]];
  }

  lemma DecodeQuantumThen(x: Byte, y: Byte, z: Byte, rest: seq<Symbol>, tail: seq<Byte>)
    requires |tail| > 0 && DecodeSymbols(rest) == Some(tail)
    ensures DecodeSymbols(Quantum(x, y, z) + rest) == Some([x, y, z] + tail)
  {
    DecodeQuantum(x, y, z);
    DecodeSymbolsStep(Quantum(x, y, z), rest, [x, y, z], tail);
  }

  lemma SplitThree(b: seq<Byte>)
    requires |b| >= 3
    ensures b == [b[0], b[1], b[2]] + b[3..]
  {
  }

  lemma DecodeEncodeLong(b: seq<Byte>)
    requires |b| > 3
    requires DecodeSymbols(EncodeSymbols(b[3..])) == Some(b[3..])
    ensures DecodeSymbols(EncodeSymbols(b)) == Some(b)
  {
    EncodeSymbolsLong(b);
    DecodeQuantumThen(b[0], b[1], b[2], EncodeSymbols(b[3..]), b[3..]);
    SplitThree(b);
  }

  /** Decoding the symbols of an encoding gives back the bytes. */
  lemma {:induction false} DecodeSymbolsEncode(b: seq<Byte>)
    ensures DecodeSymbols(EncodeSymbols(b)) == Some(b)
    decreases |b|
  {
    if |b| == 1 {
      DecodeEncodeOne(b);
    } else if |b| == 2 {
      DecodeEncodeTwo(b);
    } else if |b| == 3 {
      DecodeEncodeThree(b);
    } else if |b| > 3 {
      DecodeSymbolsEncode(b[3..]);
      DecodeEncodeLong(b);
    }
  }

  lemma StripLineBreaksFree(s: string)
    requires forall i | 0 <= i < |s| :: !IsLineBreak(s[i])
    ensures StripLineBreaks(s) == s
    decreases |s|
  {
    if |s| > 0 {
      StripLineBreaksFree(s[1..]);
    }
  }

  /** Decoding inverts encoding: every byte string survives the round trip. */
  lemma DecodeEncode(b: seq<Byte>)
    ensures Decode(Encode(b)) == Some(b)
  {
    var syms := EncodeSymbols(b);
    var s := Render(syms);
    SymbolsOfRender(syms);
    assert forall i | 0 <= i < |s| :: !IsLineBreak(s[i]) by {
      forall i | 0 <= i < |s| ensures !IsLineBreak(s[i]) {
        assert SymbolOf(s[i]).Some?;
      }
    }
    StripLineBreaksFree(s);
    DecodeSymbolsEncode(b);
  }

  // The converse: what decodes is an encoding, up to the bits a padded quantum drops.

  /** A last quantum with its unused low bits cleared: two bits of the third digit
      before one pad, four bits of the second digit before two. */
  function ClearLast(a: Symbol, b: Symbol, c: Symbol, d: Symbol): (r: seq<Symbol>)
    ensures |r| == 4
  {
    match (a, b, c, d)
    case (Digit(_), Digit(vb), Pad, Pad) => [a, Digit(vb - vb % 16), Pad, Pad]
    case (Digit(_), Digit(_), Digit(vc), Pad) => [a, b, Digit(vc - vc % 4), Pad]
    case _ => [a, b, c, d]
  }

  /** `s` with the unused bits of its last quantum cleared; the padding stays in place. */
  function ClearSlack(s: seq<Symbol>): (r: seq<Symbol>)
    ensures |r| == |s|
    ensures forall i | 0 <= i < |s| :: r[i].Pad? <==> s[i].Pad?
    decreases |s|
  {
    if |s| < 4 then s
    else if |s| == 4 then ClearLast(s[0], s[1], s[2], s[3])
    else s[..4] + ClearSlack(s[4..])
  }

  lemma SplitDigit64(hi: nat, lo: nat)
    requires lo < 64
    ensures (hi * 64 + lo) / 64 == hi && (hi * 64 + lo) % 64 == lo
  {
  }

  // Cutting glued sextets gives the sextets back, one position at a time.
  lemma CutGlue0(a: Sextet, b: Sextet)
    ensures Sextet0(Byte0(a, b)) == a && Byte0(a, b) % 4 == b / 16
  {
    SplitDigit4(a, b / 16);
  }

  lemma CutGlue1(a: Sextet, b: Sextet, c: Sextet)
    ensures Sextet1(Byte0(a, b), Byte1(b, c)) == b && Byte1(b, c) % 16 == c / 4
  {
    CutGlue0(a, b);
    SplitDigit16(b % 16, c / 4);
  }

  lemma CutGlue2(b: Sextet, c: Sextet, d: Sextet)
    ensures Sextet2(Byte1(b, c), Byte2(c, d)) == c && Sextet3(Byte2(c, d)) == d
  {
    SplitDigit16(b % 16, c / 4);
    SplitDigit64(c % 4, d);
  }

  /** An inner quantum is the quantum of the bytes it decodes to. */
  lemma InnerCanonical(a: Symbol, b: Symbol, c: Symbol, d: Symbol, head: seq<Byte>)
    requires DecodeInner(a, b, c, d) == Some(head)
    ensures |head| == 3 && Quantum(head[0], head[1], head[2]) == [a, b, c, d]
  {
    CutGlue0(a.value, b.value);
    CutGlue1(a.value, b.value, c.value);
    CutGlue2(b.value, c.value, d.value);
  }

  lemma LastCanonicalFour(a: Sextet, b: Sextet, c: Sextet, d: Sextet, out: seq<Byte>)
    requires out == [Byte0(a, b), Byte1(b, c), Byte2(c, d)]
    ensures EncodeSymbols(out) == [Digit(a), Digit(b), Digit(c), Digit(d)]
  {
    InnerCanonical(Digit(a), Digit(b), Digit(c), Digit(d), out);
    EncodeSymbolsLong(out);
    assert out[3..] == [];
  }

  lemma LastCanonicalThree(a: Sextet, b: Sextet, c: Sextet, out: seq<Byte>)
    requires out == [Byte0(a, b), Byte1(b, c)]
    ensures EncodeSymbols(out) == [Digit(a), Digit(b), Digit(c - c % 4), Pad]
  {
    CutGlue0(a, b);
    CutGlue1(a, b, c);
    EncodeSymbolsTwoBytes(out);
  }

  lemma LastCanonicalTwo(a: Sextet, b: Sextet, out: seq<Byte>)
    requires out == [Byte0(a, b)]
    ensures EncodeSymbols(out) == [Digit(a), Digit(b - b % 16), Pad, Pad]
  {
    CutGlue0(a, b);
    EncodeSymbolsOneByte(out);
  }

  /** A last quantum is the encoding of its bytes once its unused bits are cleared. */
  lemma LastCanonical(a: Symbol, b: Symbol, c: Symbol, d: Symbol, out: seq<Byte>)
    requires DecodeLast(a, b, c, d) == Some(out)
    ensures EncodeSymbols(out) == ClearLast(a, b, c, d)
  {
    match (a, b, c, d)
    case (Digit(va), Digit(vb), Digit(vc), Digit(vd)) =>
      LastCanonicalFour(va, vb, vc, vd, out);
    case (Digit(va), Digit(vb), Digit(vc), Pad) =>
      LastCanonicalThree(va, vb, vc, out);
    case (Digit(va), Digit(vb), Pad, Pad) =>
      LastCanonicalTwo(va, vb, out);
  }

  lemma ClearSlackStep(s: seq<Symbol>)
    requires |s| > 4
    ensures ClearSlack(s) == [s[0], s[1], s[2], s[3]] + ClearSlack(s[4..])
  {
    assert s[..4] == [s[0], s[1], s[2], s[3]];
  }

  lemma EncodeSymbolsPrepend(head: seq<Byte>, tail: seq<Byte>)
    requires |head| == 3
    ensures EncodeSymbols(head + tail) == Quantum(head[0], head[1], head[2]) + EncodeSymbols(tail)
  {
    var b := head + tail;
    EncodeSymbolsLong(b);
    assert b[3..] == tail;
    assert b[0] == head[0] && b[1] == head[1] && b[2] == head[2];
  }

  /** Decoded symbols are, up to the unused bits of the last quantum, the encoding of
      what they decode to. */
  lemma {:induction false} DecodeSymbolsCanonical(s: seq<Symbol>, out: seq<Byte>)
    requires DecodeSymbols(s) == Some(out)
    ensures EncodeSymbols(out) == ClearSlack(s)
    decreases |s|
  {
    if |s| == 4 {
      DecodeSymbolsOne(s);
      LastCanonical(s[0], s[1], s[2], s[3], out);
    } else if |s| > 4 {
      var head := DecodeInner(s[0], s[1], s[2], s[3]).value;
      var tail := DecodeSymbols(s[4..]).value;
      assert out == head + tail;
      DecodeSymbolsCanonical(s[4..], tail);
      InnerCanonical(s[0], s[1], s[2], s[3], head);
      EncodeSymbolsPrepend(head, tail);
      ClearSlackStep(s);
    }
  }

  /** Clearing the unused bits of a last quantum does not change what it decodes to. */
  lemma LastIgnoresSlack(a: Symbol, b: Symbol, c: Symbol, d: Symbol)
    ensures var q := ClearLast(a, b, c, d); DecodeLast(q[0], q[1], q[2], q[3]) == DecodeLast(a, b, c, d)
  {
    match (a, b, c, d)
    case (Digit(va), Digit(vb), Pad, Pad) =>
      SplitDigit16(vb / 16, vb % 16);
      DecodeTwoDigits(va, vb - vb % 16);
      DecodeTwoDigits(va, vb);
    case (Digit(va), Digit(vb), Digit(vc), Pad) =>
      SplitDigit4(vc / 4, vc % 4);
      DecodeThreeDigits(va, vb, vc - vc % 4);
      DecodeThreeDigits(va, vb, vc);
    case _ =>
  }

  /** `DecodeSymbols` of four symbols followed by more, one quantum at a time. */
  lemma DecodeSymbolsSplit(q: seq<Symbol>, rest: seq<Symbol>)
    requires |q| == 4 && |rest| > 0
    ensures DecodeSymbols(q + rest) ==
      if DecodeInner(q[0], q[1], q[2], q[3]).None? || DecodeSymbols(rest).None? then None
      else Some(DecodeInner(q[0], q[1], q[2], q[3]).value + DecodeSymbols(rest).value)
  {
    var s := q + rest;
    assert s[4..] == rest;
    assert s[0] == q[0] && s[1] == q[1] && s[2] == q[2] && s[3] == q[3];
  }

  /** The unused bits are ignored: clearing them decodes to the same bytes. */
  lemma {:induction false} DecodeIgnoresSlack(s: seq<Symbol>)
    ensures DecodeSymbols(ClearSlack(s)) == DecodeSymbols(s)
    decreases |s|
  {
    if |s| == 4 {
      DecodeSymbolsOne(s);
      DecodeSymbolsOne(ClearSlack(s));
      LastIgnoresSlack(s[0], s[1], s[2], s[3]);
    } else if |s| > 4 {
      var q := [s[0], s[1], s[2], s[3]];
      DecodeIgnoresSlack(s[4..]);
      ClearSlackStep(s);
      DecodeSymbolsSplit(q, ClearSlack(s[4..]));
      DecodeSymbolsSplit(q, s[4..]);
      assert s == q + s[4..];
    }
  }

  /** Exactly the strings whose symbols are the encoding of `b` up to the unused bits
      of the last quantum decode to `b`: `DecodeEncode` and its converse in one. */
  lemma DecodeExactly(s: string, b: seq<Byte>)
    ensures Decode(s) == Some(b) <==>
      Symbols(StripLineBreaks(s)).Some? && ClearSlack(Symbols(StripLineBreaks(s)).value) == EncodeSymbols(b)
  {
    var syms := Symbols(StripLineBreaks(s));
    if syms.Some? {
      if Decode(s) == Some(b) {
        DecodeSymbolsCanonical(syms.value, b);
      }
      if ClearSlack(syms.value) == EncodeSymbols(b) {
        DecodeIgnoresSlack(syms.value);
        DecodeSymbolsEncode(b);
      }
    }
  }

  lemma PadCharOfSymbol(x: Symbol)
    ensures CharOfSymbol(x) == PadChar <==> x.Pad?
  {
    if x.Digit? {
      assert IsAlphabetChar(CharOfSymbol(x));
    }
  }

  /** The shape `Decode` promises, from the symbols of the input and the bytes they
      decode to. */
  lemma DecodeShape(t: string, syms: seq<Symbol>, b: seq<Byte>)
    requires Symbols(t) == Some(syms) && DecodeSymbols(syms) == Some(b)
    ensures |t| == |Encode(b)|
    ensures forall i | 0 <= i < |t| :: t[i] == PadChar <==> Encode(b)[i] == PadChar
  {
    DecodeSymbolsCanonical(syms, b);
    var e := EncodeSymbols(b);
    forall i | 0 <= i < |t|
      ensures t[i] == PadChar <==> Encode(b)[i] == PadChar
    {
      assert SymbolOf(t[i]) == Some(syms[i]);
      PadCharOfSymbol(e[i]);
    }
  }

  /** An encoding pads only its last two places, and a pad is never followed by a digit. */
  lemma {:induction false} EncodeSymbolsPadding(b: seq<Byte>)
    ensures var e := EncodeSymbols(b);
      forall i | 0 <= i < |e| - 2 :: e[i].Digit?
    ensures var e := EncodeSymbols(b);
      |e| >= 2 && e[|e| - 2].Pad? ==> e[|e| - 1].Pad?
    decreases |b|
  {
    if |b| == 1 {
      EncodeSymbolsOneByte(b);
    } else if |b| == 2 {
      EncodeSymbolsTwoBytes(b);
    } else if |b| == 3 {
      EncodeSymbolsLong(b);
      assert EncodeSymbols(b[3..]) == [];
    } else if |b| > 3 {
      EncodeSymbolsLong(b);
      EncodeSymbolsPadding(b[3..]);
      var q, e' := Quantum(b[0], b[1], b[2]), EncodeSymbols(b[3..]);
      var e := q + e';
      assert forall i | 4 <= i < |e| :: e[i] == e'[i - 4];
    }
  }

  /** The same, on the characters of `Encode`. */
  lemma EncodePadding(b: seq<Byte>)
    ensures var e := Encode(b);
      forall i | 0 <= i < |e| - 2 :: e[i] != PadChar
    ensures var e := Encode(b);
      |e| >= 2 && e[|e| - 2] == PadChar ==> e[|e| - 1] == PadChar
  {
    var syms := EncodeSymbols(b);
    EncodeSymbolsPadding(b);
    var e := Encode(b);
    forall i | 0 <= i < |e|
      ensures e[i] == PadChar <==> syms[i].Pad?
    {
      PadCharOfSymbol(syms[i]);
    }
  }

  /** A pad anywhere before the last two places is never accepted. */
  lemma DecodeRejectsEarlyPad(s: string, i: nat)
    requires i + 2 < |StripLineBreaks(s)| && StripLineBreaks(s)[i] == PadChar
    ensures Decode(s) == None
  {
    var r := Decode(s);
    if r.Some? {
      var t, e := StripLineBreaks(s), Encode(r.value);
      EncodePadding(r.value);
      assert false;
    }
  }

  /** A pad in the next-to-last place followed by a last character that is not a pad is
      never accepted; pads further forward are `DecodeRejectsEarlyPad`'s case. */
  lemma DecodeRejectsPadBeforeDigit(s: string)
    requires var t := StripLineBreaks(s);
      |t| >= 2 && t[|t| - 2] == PadChar && t[|t| - 1] != PadChar
    ensures Decode(s) == None
  {
    var r := Decode(s);
    if r.Some? {
      var t, e := StripLineBreaks(s), Encode(r.value);
      EncodePadding(r.value);
      assert false;
    }
  }

  /** Every character of `s` other than a line break survives `StripLineBreaks`. */
  lemma {:induction false} StripLineBreaksKeeps(s: string, i: nat)
    requires i < |s| && !IsLineBreak(s[i])
    ensures s[i] in StripLineBreaks(s)
    decreases |s|
  {
    if i > 0 {
      StripLineBreaksKeeps(s[1..], i - 1);
      assert s[1..][i - 1] == s[i];
    }
  }

  /** A string holding a character that is neither in the alphabet, nor padding, nor
      a line break is never accepted. */
  lemma DecodeRejectsForeign(s: string, i: nat)
    requires i < |s|
    requires !IsAlphabetChar(s[i]) && s[i] != PadChar && !IsLineBreak(s[i])
    ensures Decode(s) == None
  {
    StripLineBreaksKeeps(s, i);
  }

  /** A string whose length without line breaks is not a multiple of four is never accepted. */
  lemma DecodeRejectsPartialQuantum(s: string)
    requires |StripLineBreaks(s)| % 4 != 0
    ensures Decode(s) == None
  {
    var syms := Symbols(StripLineBreaks(s));
    if syms.Some? {
      DecodeSymbolsWholeQuanta(syms.value);
    }
  }

  lemma NoLineBreaks(s: string)
    requires forall i | 0 <= i < |s| :: IsAlphabetChar(s[i]) || s[i] == PadChar
    ensures StripLineBreaks(s) == s
  {
    StripLineBreaksFree(s);
  }

  /** `Symbols` reads a string character by character. */
  lemma SymbolsOfEach(s: string, syms: seq<Symbol>)
    requires |s| == |syms|
    requires forall i | 0 <= i < |s| :: SymbolOf(s[i]) == Some(syms[i])
    ensures Symbols(s) == Some(syms)
  {
    assert forall i | 0 <= i < |s| :: SymbolOf(s[i]).Some?;
    var r := seq(|s|, i requires 0 <= i < |s| => SymbolOf(s[i]).value);
    assert r == syms;
  }

  lemma SymbolsOfExample()
    ensures Symbols("VGVzdA==") == Some([Digit(21), Digit(6), Digit(21), Digit(51), Digit(29), Digit(0), Pad, Pad])
  {
    assert SymbolOf('V') == Some(Digit(21));
    assert SymbolOf('G') == Some(Digit(6));
    assert SymbolOf('z') == Some(Digit(51));
    assert SymbolOf('d') == Some(Digit(29));
    assert SymbolOf('A') == Some(Digit(0));
    assert SymbolOf('=') == Some(Pad);
    SymbolsOfEach("VGVzdA==", [Digit(21), Digit(6), Digit(21), Digit(51), Digit(29), Digit(0), Pad, Pad]);
  }

  lemma DecodeSymbolsOfExample()
    ensures DecodeSymbols([Digit(21), Digit(6), Digit(21), Digit(51), Digit(29), Digit(0), Pad, Pad]) == Some([84, 101, 115, 116])
  {
    var q, rest := [Digit(21), Digit(6), Digit(21), Digit(51)], [Digit(29), Digit(0), Pad, Pad];
    DecodeFourDigits(21, 6, 21, 51);
    assert Byte0(21, 6) == 84 && Byte1(6, 21) == 101 && Byte2(21, 51) == 115;
    DecodeSymbolsOne(rest);
    DecodeTwoDigits(29, 0);
    assert Byte0(29, 0) == 116;
    DecodeSymbolsStep(q, rest, [84, 101, 115], [116]);
    assert [84, 101, 115] + [116] == [84, 101, 115, 116];
    assert q + rest == [Digit(21), Digit(6), Digit(21), Digit(51), Digit(29), Digit(0), Pad, Pad];
  }

  /** "VGVzdA==" decodes to the bytes of "Test". */
  lemma DecodeExample()
    ensures Decode("VGVzdA==") == Some([84, 101, 115, 116])
  {
    SymbolsOfExample();
    NoLineBreaks("VGVzdA==");
    DecodeSymbolsOfExample();
  }

  /** "Test" itself is well-formed base64, of the bytes 0x4D 0xEB 0x2D. */
  lemma DecodePlainWord()
    ensures Decode("Test") == Some([0x4D, 0xEB, 0x2D])
  {
    assert SymbolOf('T') == Some(Digit(19));
    assert SymbolOf('e') == Some(Digit(30));
    assert SymbolOf('s') == Some(Digit(44));
    assert SymbolOf('t') == Some(Digit(45));
    SymbolsOfEach("Test", [Digit(19), Digit(30), Digit(44), Digit(45)]);
    NoLineBreaks("Test");
    DecodeSymbolsOne([Digit(19), Digit(30), Digit(44), Digit(45)]);
    DecodeFourDigits(19, 30, 44, 45);
    assert Byte0(19, 30) == 0x4D && Byte1(30, 44) == 0xEB && Byte2(44, 45) == 0x2D;
  }

  /** Padding before the last quantum is refused. */
  lemma DecodeRejectsPadThenQuantum()
    ensures Decode("AB==CDEF") == None
  {
    NoLineBreaks("AB==CDEF");
    DecodeRejectsEarlyPad("AB==CDEF", 2);
  }

  /** A lone digit before three pads is refused. */
  lemma DecodeRejectsLoneDigit()
    ensures Decode("A===") == None
  {
    NoLineBreaks("A===");
    DecodeRejectsEarlyPad("A===", 1);
  }

  /** A pad followed by a digit is refused. */
  lemma DecodeRejectsDigitAfterPad()
    ensures Decode("AB=C") == None
  {
    NoLineBreaks("AB=C");
    DecodeRejectsPadBeforeDigit("AB=C");
  }
}
