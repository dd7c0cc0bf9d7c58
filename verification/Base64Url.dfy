/** Unpadded base64url as ArcAuth writes it, and the padded, line-break-skipping decoder that the
    gateway and DBMux read it with (section 5 of RFC 4648). */
module Base64Url {
  import opened Prelude

  type Byte = b: int | 0 <= b < 256

  type Sextet = v: int | 0 <= v < 64

  function Digit(v: Sextet): char {
    if v < 26 then (v + 'A' as int) as char
    else if v < 52 then (v - 26 + 'a' as int) as char
    else if v < 62 then (v - 52 + '0' as int) as char
    else if v == 62 then '-'
    else '_'
  }

  function Value(c: char): Option<Sextet> {
    if 'A' <= c <= 'Z' then Some(c as int - 'A' as int)
    else if 'a' <= c <= 'z' then Some(c as int - 'a' as int + 26)
    else if '0' <= c <= '9' then Some(c as int - '0' as int + 52)
    else if c == '-' then Some(62)
    else if c == '_' then Some(63)
    else None
  }

  const UPPER := "ABCDEFGHIJKLMNOPQRSTUVWXYZ"
  const LOWER := "abcdefghijklmnopqrstuvwxyz"
  const FIGURES := "0123456789"

  /** The URL-safe alphabet of section 5 of RFC 4648. */
  const ALPHABET := UPPER + LOWER + FIGURES + "-_"

  lemma DigitsAreAlphabet(v: Sextet)
    ensures |ALPHABET| == 64 && Digit(v) == ALPHABET[v]
  {
    if v < 26 {
      assert ALPHABET[v] == UPPER[v];
    } else if v < 52 {
      assert ALPHABET[v] == LOWER[v - 26];
    } else if v < 62 {
      assert ALPHABET[v] == FIGURES[v - 52];
    }
  }

  lemma ValueOfDigit(v: Sextet, c: char)
    ensures Value(c) == Some(v) <==> c == Digit(v)
  {
  }

  lemma DigitValue(v: Sextet)
    ensures Value(Digit(v)) == Some(v)
  {
  }

  function Four(a: Byte, b: Byte, c: Byte): (s: string)
    ensures |s| == 4
  {
    [Digit(a / 4), Digit(a % 4 * 16 + b / 16), Digit(b % 16 * 4 + c / 64), Digit(c % 64)]
  }

  /** RawURLEncoding: three bytes to four digits, no padding; a short end keeps only the digits it needs. */
  function Encode(b: seq<Byte>): string {
    if b == [] then ""
    else if |b| == 1 then Four(b[0], 0, 0)[..2]
    else if |b| == 2 then Four(b[0], b[1], 0)[..3]
    else Four(b[0], b[1], b[2]) + Encode(b[3..])
  }

  predicate IsLineBreak(c: char) { c == '\n' || c == '\r' }

  function NoLineBreak(): char -> bool { (c: char) => !IsLineBreak(c) }

  /** One group of four characters: padding is accepted only in the last, and leftover bits ignored. */
  function Quantum(q: string, last: bool): Option<seq<Byte>>
    requires |q| == 4
  {
    if Value(q[0]).None? || Value(q[1]).None? then None
    else
      var v0, v1 := Value(q[0]).value, Value(q[1]).value;
      if q[2] == '=' then (if q[3] == '=' && last then Some([v0 * 4 + v1 / 16]) else None)
      else if Value(q[2]).None? then None
      else
        var v2 := Value(q[2]).value;
        if q[3] == '=' then (if last then Some([v0 * 4 + v1 / 16, v1 % 16 * 16 + v2 / 4]) else None)
        else if Value(q[3]).None? then None
        else Some([v0 * 4 + v1 / 16, v1 % 16 * 16 + v2 / 4, v2 % 4 * 64 + Value(q[3]).value])
  }

  function DecodeQuanta(s: string): Option<seq<Byte>> {
    if s == "" then Some([])
    else if |s| < 4 then None
    else
      var first := Quantum(s[..4], |s| == 4);
      if first.None? then None
      else
        var rest := DecodeQuanta(s[4..]);
        if rest.None? then None else Some(first.value + rest.value)
  }

  /** URLEncoding.DecodeString skips line breaks wherever they stand. */
  function Decode(s: string): Option<seq<Byte>> { DecodeQuanta(Filter(NoLineBreak(), s)) }

  /** The gateway pads only lengths that can be repaired. */
  function GatewayPad(s: string): string {
    if |s| % 4 == 2 then s + "==" else if |s| % 4 == 3 then s + "=" else s
  }

  /** DBMux pads every length up to a multiple of four. */
  function DbmuxPad(s: string): string {
    var m := |s| % 4;
    if m != 0 then s + seq(4 - m, _ => '=') else s
  }

  predicate Plain(s: string) { forall c :: c in s ==> Value(c).Some? }

  lemma Recombine(a: Byte, b: Byte, c: Byte)
    ensures a / 4 * 4 + (a % 4 * 16 + b / 16) / 16 == a
    ensures (a % 4 * 16 + b / 16) % 16 * 16 + (b % 16 * 4 + c / 64) / 4 == b
    ensures (b % 16 * 4 + c / 64) % 4 * 64 + c % 64 == c
  {
    assert (a % 4 * 16 + b / 16) / 16 == a % 4 && (a % 4 * 16 + b / 16) % 16 == b / 16;
    assert (b % 16 * 4 + c / 64) / 4 == b % 16 && (b % 16 * 4 + c / 64) % 4 == c / 64;
  }

  /** Four digits read back as the sextets they were written from. */
  lemma FourValues(a: Byte, b: Byte, c: Byte)
    ensures var q := Four(a, b, c);
      && Plain(q) && Value(q[0]) == Some(a / 4) && Value(q[1]) == Some(a % 4 * 16 + b / 16)
      && Value(q[2]) == Some(b % 16 * 4 + c / 64) && Value(q[3]) == Some(c % 64)
  {
    hide Digit, Value;
    DigitValue(a / 4);
    DigitValue(a % 4 * 16 + b / 16);
    DigitValue(b % 16 * 4 + c / 64);
    DigitValue(c % 64);
  }

  lemma QuantumUndoesFour(a: Byte, b: Byte, c: Byte, last: bool)
    ensures Quantum(Four(a, b, c), last) == Some([a, b, c])
  {
    hide Value, Four;
    FourValues(a, b, c);
    Recombine(a, b, c);
    PadHasNoValue();
  }

  lemma QuantumUndoesShort(a: Byte, b: Byte)
    ensures Quantum(Four(a, b, 0)[..3] + "=", true) == Some([a, b])
    ensures Quantum(Four(a, 0, 0)[..2] + "==", true) == Some([a])
  {
    hide Value, Four;
    FourValues(a, b, 0);
    FourValues(a, 0, 0);
    Recombine(a, b, 0);
    Recombine(a, 0, 0);
    PadHasNoValue();
  }

  lemma PadHasNoValue()
    ensures Value('=') == None && Value('.') == None && Value('\n') == None && Value('\r') == None
  {
  }

  lemma {:induction false} EncodeShape(b: seq<Byte>)
    ensures Plain(Encode(b)) && |Encode(b)| == (4 * |b| + 2) / 3
  {
    hide Four, Value;
    if |b| == 1 {
      FourValues(b[0], 0, 0);
    } else if |b| == 2 {
      FourValues(b[0], b[1], 0);
    } else if |b| >= 3 {
      FourValues(b[0], b[1], b[2]);
      EncodeShape(b[3..]);
    }
  }

  /** A text read as a number, six bits a digit, behind what was read before; and bytes, eight bits each. */
  function TextNumber(before: int, s: string): int
    requires Plain(s)
    decreases |s|
  {
    if s == "" then before else
      assert s[0] in s && forall c :: c in s[1..] ==> c in s; TextNumber(before * 64 + Value(s[0]).value, s[1..])
  }

  function BytesNumber(before: int, b: seq<Byte>): int
    decreases |b|
  {
    if b == [] then before else BytesNumber(before * 256 + b[0], b[1..])
  }

  lemma GroupNumbers(before: int, a: Byte, b: Byte, c: Byte)
    ensures var v1, v2 := a % 4 * 16 + b / 16, b % 16 * 4 + c / 64;
      && (((before * 64 + a / 4) * 64 + v1) * 64 + v2) * 64 + c % 64 == ((before * 256 + a) * 256 + b) * 256 + c
      && (b == 0 ==> (before * 64 + a / 4) * 64 + v1 == (before * 256 + a) * 16)
      && (c == 0 ==> ((before * 64 + a / 4) * 64 + v1) * 64 + v2 == ((before * 256 + a) * 256 + b) * 4)
  {
    assert a == a / 4 * 4 + a % 4 && b == b / 16 * 16 + b % 16 && c == c / 64 * 64 + c % 64;
  }

  lemma TextStep(before: int, c: char, rest: string)
    requires Plain(rest) && Value(c).Some?
    ensures Plain([c] + rest) && TextNumber(before, [c] + rest) == TextNumber(before * 64 + Value(c).value, rest)
  {
    hide Value;
    assert ([c] + rest)[1..] == rest;
  }

  lemma DigitsFirst(before: int, q: string, rest: string) returns (n: int)
    requires 2 <= |q| <= 4 && Plain(q) && Plain(rest)
    ensures Plain(q + rest) && TextNumber(before, q + rest) == TextNumber(n, rest)
    ensures forall i :: 0 <= i < |q| ==> Value(q[i]).Some?
    ensures var two := (before * 64 + Value(q[0]).value) * 64 + Value(q[1]).value;
      n == if |q| == 2 then two
           else if |q| == 3 then two * 64 + Value(q[2]).value
           else (two * 64 + Value(q[2]).value) * 64 + Value(q[3]).value
  {
    hide Value, TextNumber;
    n := before;
    var left := q;
    assert forall i :: 0 <= i < |q| ==> q[i] in q;
    for i := 0 to |q|
      invariant left == q[i..]
      invariant Plain(left + rest) && TextNumber(before, q + rest) == TextNumber(n, left + rest)
      invariant i == 0 ==> n == before
      invariant i == 1 ==> n == before * 64 + Value(q[0]).value
      invariant i >= 2 ==>
        var two := (before * 64 + Value(q[0]).value) * 64 + Value(q[1]).value;
        n == if i == 2 then two
             else if i == 3 then two * 64 + Value(q[2]).value
             else (two * 64 + Value(q[2]).value) * 64 + Value(q[3]).value
    {
      assert left + rest == [q[i]] + (q[i + 1..] + rest);
      assert Plain(q[i + 1..] + rest);
      TextStep(n, q[i], q[i + 1..] + rest);
      n, left := n * 64 + Value(q[i]).value, q[i + 1..];
    }
    assert left + rest == rest;
  }

  lemma ThreeFirst(before: int, b: seq<Byte>)
    requires |b| >= 3
    ensures BytesNumber(before, b) == BytesNumber(((before * 256 + b[0]) * 256 + b[1]) * 256 + b[2], b[3..])
  {
    assert b[1..][1..] == b[2..] && b[2..][1..] == b[3..];
    assert BytesNumber(before, b) == BytesNumber(before * 256 + b[0], b[1..]);
    assert BytesNumber(before, b) == BytesNumber((before * 256 + b[0]) * 256 + b[1], b[2..]);
  }

  lemma ShortNumber(before: int, b: seq<Byte>)
    requires 1 <= |b| <= 2
    ensures Plain(Encode(b))
    ensures TextNumber(before, Encode(b)) == BytesNumber(before, b) * if |b| == 1 then 16 else 4
  {
    hide Value, Digit, Four, TextNumber;
    EncodeShape(b);
    var second := if |b| == 2 then b[1] else 0;
    var q := Encode(b);
    FourValues(b[0], second, 0);
    GroupNumbers(before, b[0], second, 0);
    var n := DigitsFirst(before, q, "");
    assert TextNumber(n, "") == n by { NoText(n); }
    assert q + "" == q;
    assert BytesNumber(before, b) == if |b| == 1 then before * 256 + b[0] else (before * 256 + b[0]) * 256 + b[1] by {
      assert |b| == 2 ==> BytesNumber(before * 256 + b[0], b[1..]) == (before * 256 + b[0]) * 256 + b[1];
    }
    hide BytesNumber;
    if |b| == 1 {
      assert n == (before * 64 + b[0] / 4) * 64 + b[0] % 4 * 16;
    } else {
      assert n == ((before * 64 + b[0] / 4) * 64 + (b[0] % 4 * 16 + second / 16)) * 64 + second % 16 * 4;
    }
  }

  /** The text is the bytes as a big-endian number, filled up to whole digits with zero bits. */
  lemma {:induction false} EncodeKeepsNumber(before: int, b: seq<Byte>)
    ensures Plain(Encode(b))
    ensures TextNumber(before, Encode(b)) ==
      BytesNumber(before, b) * if |b| % 3 == 1 then 16 else if |b| % 3 == 2 then 4 else 1
    decreases |b|
  {
    hide Value, Digit, Four, TextNumber;
    EncodeShape(b);
    if b == [] {
      assert TextNumber(before, "") == before by { NoText(before); }
    } else if |b| <= 2 {
      ShortNumber(before, b);
    } else {
      var q, rest := Four(b[0], b[1], b[2]), Encode(b[3..]);
      FourValues(b[0], b[1], b[2]);
      GroupNumbers(before, b[0], b[1], b[2]);
      EncodeKeepsNumber(((before * 256 + b[0]) * 256 + b[1]) * 256 + b[2], b[3..]);
      var n := DigitsFirst(before, q, rest);
      ThreeFirst(before, b);
      assert |b[3..]| == |b| - 3 && |b[3..]| % 3 == |b| % 3;
    }
  }

  lemma NoText(before: int)
    ensures TextNumber(before, "") == before
  {
  }

  lemma QuantumFirst(q: string, bytes: seq<Byte>, rest: string)
    requires |q| == 4 && Quantum(q, rest == "") == Some(bytes) && DecodeQuanta(rest).Some?
    ensures DecodeQuanta(q + rest) == Some(bytes + DecodeQuanta(rest).value)
  {
    assert (q + rest)[..4] == q && (q + rest)[4..] == rest;
  }

  lemma PadBehind(q: string, rest: string)
    requires |q| == 4
    ensures GatewayPad(q + rest) == q + GatewayPad(rest)
  {
    assert |q + rest| % 4 == |rest| % 4;
  }

  lemma {:induction false} DecodeEncodeQuanta(b: seq<Byte>)
    ensures DecodeQuanta(GatewayPad(Encode(b))) == Some(b)
  {
    hide Quantum, Four, DecodeQuanta;
    assert DecodeQuanta("") == Some([]) by { EmptyQuanta(); }
    if |b| == 1 {
      QuantumUndoesShort(b[0], 0);
      var q := Four(b[0], 0, 0)[..2] + "==";
      QuantumFirst(q, [b[0]], "");
      assert q + "" == q && [b[0]] + [] == b;
    } else if |b| == 2 {
      QuantumUndoesShort(b[0], b[1]);
      var q := Four(b[0], b[1], 0)[..3] + "=";
      QuantumFirst(q, [b[0], b[1]], "");
      assert q + "" == q && [b[0], b[1]] + [] == b;
    } else if |b| >= 3 {
      var rest := GatewayPad(Encode(b[3..]));
      QuantumUndoesFour(b[0], b[1], b[2], rest == "");
      DecodeEncodeQuanta(b[3..]);
      QuantumFirst(Four(b[0], b[1], b[2]), [b[0], b[1], b[2]], rest);
      PadBehind(Four(b[0], b[1], b[2]), Encode(b[3..]));
      assert b == [b[0], b[1], b[2]] + b[3..];
    }
  }

  lemma EmptyQuanta()
    ensures DecodeQuanta("") == Some([])
  {
  }

  lemma PlainHasNoLineBreaks(s: string, pad: string)
    requires Plain(s) && forall c :: c in pad ==> c == '='
    ensures Filter(NoLineBreak(), s + pad) == s + pad
  {
    PadHasNoValue();
    FilterAll(NoLineBreak(), s + pad);
  }

  /** Except for one case, the two paddings are the same. */
  lemma SamePadding(s: string)
    requires |s| % 4 != 1
    ensures GatewayPad(s) == DbmuxPad(s)
    ensures exists pad :: GatewayPad(s) == s + pad && forall c :: c in pad ==> c == '='
  {
    assert seq(2, _ => '=') == "==" && seq(1, _ => '=') == "=";
    assert s + "" == s;
    var pad := if |s| % 4 == 2 then "==" else if |s| % 4 == 3 then "=" else "";
    assert GatewayPad(s) == s + pad && forall c :: c in pad ==> c == '=';
  }

  /** Decoding undoes encoding, over all byte strings, with either service's padding. */
  lemma DecodeUndoesEncode(b: seq<Byte>)
    ensures Decode(GatewayPad(Encode(b))) == Some(b)
    ensures Decode(DbmuxPad(Encode(b))) == Some(b)
  {
    hide Encode, DecodeQuanta, Filter, Plain, GatewayPad, DbmuxPad;
    var s := Encode(b);
    EncodeShape(b);
    DecodeEncodeQuanta(b);
    SamePadding(s);
    var pad :| GatewayPad(s) == s + pad && forall c :: c in pad ==> c == '=';
    PlainHasNoLineBreaks(s, pad);
  }

  lemma {:induction false} QuantaLength(s: string)
    ensures DecodeQuanta(s).Some? ==> |s| % 4 == 0
  {
    if |s| >= 4 {
      QuantaLength(s[4..]);
    }
  }

  /** A pad character where a new group would start is an error. */
  lemma {:induction false} PadAlone(s: string)
    ensures DecodeQuanta(s + "===").None?
  {
    var t := s + "===";
    if |s| >= 4 {
      assert t[4..] == s[4..] + "===";
      PadAlone(s[4..]);
    } else if |s| > 0 {
      PadHasNoValue();
      assert t[..4][|s|] == '=' && t[..4][1] == t[1] && t[..4][3] == t[3] == '=';
    }
  }

  /** Where the gateway would need three characters of padding it adds none, and DBMux never decodes. */
  lemma ThreePadsFail(s: string)
    requires |s| % 4 == 1
    ensures GatewayPad(s) == s && Decode(DbmuxPad(s)) == None
  {
    hide DecodeQuanta, Filter;
    assert seq(3, _ => '=') == "===";
    FilterAppend(NoLineBreak(), s, "===");
    FilterAll(NoLineBreak(), "===");
    PadAlone(Filter(NoLineBreak(), s));
  }

  lemma BreaksVanish()
    ensures Filter(NoLineBreak(), "\n") == ""
  {
    FilterNone(NoLineBreak(), "\n");
  }

  /** Decoding skips a line break of either kind, wherever it stands. */
  lemma BreakIsSkipped(a: string, c: char, b: string)
    requires c in {'\n', '\r'}
    ensures Decode(a + [c] + b) == Decode(a + b)
  {
    FilterAppend(NoLineBreak(), a + [c], b);
    FilterAppend(NoLineBreak(), a, [c]);
    FilterAppend(NoLineBreak(), a, b);
    assert Filter(NoLineBreak(), [c]) == [] by { FilterNone(NoLineBreak(), [c]); }
    hide Filter, DecodeQuanta;
    assert Filter(NoLineBreak(), a) + [] == Filter(NoLineBreak(), a);
    assert Filter(NoLineBreak(), a + [c] + b) == Filter(NoLineBreak(), a + b);
  }

  lemma WholeGroups(b: seq<Byte>)
    requires |b| % 3 == 0
    ensures |Encode(b)| % 4 == 0 && GatewayPad(Encode(b)) == Encode(b)
  {
    hide Encode;
    EncodeShape(b);
    var m := |b| / 3;
    assert |b| == 3 * m && |Encode(b)| == 4 * m;
  }

  /** The case occurs: whole groups followed by a line break. */
  lemma LineBreakSplits(b: seq<Byte>)
    requires |b| % 3 == 0
    ensures var s := Encode(b) + "\n"; Decode(GatewayPad(s)) == Some(b) && Decode(DbmuxPad(s)) == None
  {
    hide Encode, DecodeQuanta, Filter, Plain, Value, DbmuxPad, GatewayPad, NoLineBreak;
    var s := Encode(b);
    EncodeShape(b);
    WholeGroups(b);
    ThreePadsFail(s + "\n");
    DecodeEncodeQuanta(b);
    FilterAppend(NoLineBreak(), s, "\n");
    assert Filter(NoLineBreak(), "\n") == "" by { BreaksVanish(); }
    PlainHasNoLineBreaks(s, "");
    assert s + "" == s;
  }

  /** The two paddings decode every payload alike, except exactly one of length 4k + 1 that decodes
      as it stands; and that takes a line break inside it. */
  lemma PaddingsAgreeIff(s: string)
    ensures Decode(GatewayPad(s)) == Decode(DbmuxPad(s)) <==> !(|s| % 4 == 1 && Decode(s).Some?)
    ensures (forall c :: c in s ==> !IsLineBreak(c)) ==> Decode(GatewayPad(s)) == Decode(DbmuxPad(s))
  {
    hide DecodeQuanta, Filter;
    if |s| % 4 != 1 {
      SamePadding(s);
    } else {
      ThreePadsFail(s);
      QuantaLength(s);
      if forall c :: c in s ==> !IsLineBreak(c) {
        FilterAll(NoLineBreak(), s);
      }
    }
  }
}
