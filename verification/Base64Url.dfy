/** Base64 with the URL and file-name safe alphabet and no padding
    (sections 3.2 and 5 of RFC 4648). */
module Base64Url {

  type Byte = x: int | 0 <= x < 256
  type Sextet = x: int | 0 <= x < 64

  datatype Decoded = Invalid | Bytes(bytes: seq<Byte>)

  function Symbol(v: Sextet): char {
    if v < 26 then (65 + v) as char
    else if v < 52 then (71 + v) as char
    else if v < 62 then (v - 4) as char
    else if v == 62 then '-'
    else '_'
  }

  predicate IsSymbol(c: char) {
    'A' <= c <= 'Z' || 'a' <= c <= 'z' || '0' <= c <= '9' || c == '-' || c == '_'
  }

  function SymbolValue(c: char): (v: Sextet)
    requires IsSymbol(c)
  {
    if 'A' <= c <= 'Z' then c as int - 65
    else if 'a' <= c <= 'z' then c as int - 71
    else if '0' <= c <= '9' then c as int + 4
    else if c == '-' then 62
    else 63
  }

  lemma SymbolsInvert(v: Sextet)
    ensures IsSymbol(Symbol(v)) && SymbolValue(Symbol(v)) == v
  {
  }

  /** Three bytes become four sextets; one or two left over become two or three. */
  function Sextets(b: seq<Byte>): (s: seq<Sextet>) {
    if |b| == 0 then []
    else if |b| == 1 then [b[0] / 4, b[0] % 4 * 16]
    else if |b| == 2 then [b[0] / 4, b[0] % 4 * 16 + b[1] / 16, b[1] % 16 * 4]
    else [b[0] / 4, b[0] % 4 * 16 + b[1] / 16, b[1] % 16 * 4 + b[2] / 64, b[2] % 64] + Sextets(b[3..])
  }

  function First(s: seq<Sextet>): Byte
    requires |s| > 1
  {
    s[0] as int * 4 + s[1] / 16
  }

  function Second(s: seq<Sextet>): Byte
    requires |s| > 2
  {
    s[1] as int % 16 * 16 + s[2] / 4
  }

  function Third(s: seq<Sextet>): Byte
    requires |s| > 3
  {
    s[2] as int % 4 * 64 + s[3]
  }

  /** The inverse; a stray single sextet and non-zero trailing bits are errors. */
  function FromSextets(s: seq<Sextet>): Decoded {
    if |s| == 0 then Bytes([])
    else if |s| == 1 then Invalid
    else if |s| == 2 then
      if s[1] % 16 != 0 then Invalid else Bytes([First(s)])
    else if |s| == 3 then
      if s[2] % 4 != 0 then Invalid else Bytes([First(s), Second(s)])
    else
      match FromSextets(s[4..])
      case Invalid => Invalid
      case Bytes(more) => Bytes([First(s), Second(s), Third(s)] + more)
  }

  function Encode(b: seq<Byte>): (text: string)
    ensures |text| == |Sextets(b)|
  {
    var s := Sextets(b);
    seq(|s|, i requires 0 <= i < |s| => Symbol(s[i]))
  }

  function Decode(text: string): Decoded {
    if exists i :: 0 <= i < |text| && !IsSymbol(text[i]) then Invalid
    else FromSextets(seq(|text|, i requires 0 <= i < |text| => SymbolValue(text[i])))
  }

  lemma GroupInverts(s: seq<Sextet>, x: Byte, y: Byte, z: Byte)
    requires |s| >= 4 && s[0] == x / 4 && s[1] == x % 4 * 16 + y / 16 && s[2] == y % 16 * 4 + z / 64 && s[3] == z % 64
    ensures First(s) == x && Second(s) == y && Third(s) == z
  {
  }

  lemma {:induction false} SextetsInvert(b: seq<Byte>)
    ensures FromSextets(Sextets(b)) == Bytes(b)
  {
    if |b| >= 3 {
      SextetsInvert(b[3..]);
      assert Sextets(b)[4..] == Sextets(b[3..]);
      GroupInverts(Sextets(b), b[0], b[1], b[2]);
      assert b == [b[0], b[1], b[2]] + b[3..];
    }
  }

  lemma DecodeEncode(b: seq<Byte>)
    ensures Decode(Encode(b)) == Bytes(b)
  {
    var s, text := Sextets(b), Encode(b);
    forall i | 0 <= i < |text| ensures IsSymbol(text[i]) && SymbolValue(text[i]) == s[i] {
      SymbolsInvert(s[i]);
    }
    assert seq(|text|, i requires 0 <= i < |text| => SymbolValue(text[i])) == s;
    SextetsInvert(b);
  }

  lemma {:induction false} FromSextetsCanonical(s: seq<Sextet>)
    requires FromSextets(s).Bytes?
    ensures Sextets(FromSextets(s).bytes) == s
  {
    if |s| >= 4 {
      var more := FromSextets(s[4..]).bytes;
      FromSextetsCanonical(s[4..]);
      GroupEncodes(s[0], s[1], s[2], s[3], First(s), Second(s), Third(s));
      var b := [First(s), Second(s), Third(s)] + more;
      assert b[3..] == more;
      assert s == [s[0], s[1], s[2], s[3]] + s[4..];
    } else if |s| == 3 {
      GroupEncodes(s[0], s[1], s[2], 0, First(s), Second(s), s[2] % 4 * 64);
    } else if |s| == 2 {
      GroupEncodes(s[0], s[1], 0, 0, First(s), s[1] % 16 * 16, 0);
    }
  }

  lemma GroupEncodes(s0: Sextet, s1: Sextet, s2: Sextet, s3: Sextet, x: Byte, y: Byte, z: Byte)
    requires x == s0 as int * 4 + s1 / 16 && y == s1 as int % 16 * 16 + s2 / 4 && z == s2 as int % 4 * 64 + s3
    ensures x / 4 == s0 && x % 4 * 16 + y / 16 == s1 && y % 16 * 4 + z / 64 == s2 && z % 64 == s3
  {
  }

  /** Only encodings decode: a text that is accepted is the encoding of its bytes. */
  lemma DecodedEncodes(text: string)
    requires Decode(text).Bytes?
    ensures Encode(Decode(text).bytes) == text
  {
    var s := seq(|text|, i requires 0 <= i < |text| => SymbolValue(text[i]));
    FromSextetsCanonical(s);
    forall i | 0 <= i < |text| ensures Symbol(SymbolValue(text[i])) == text[i] {
      ValuesInvert(text[i]);
    }
  }

  lemma ValuesInvert(c: char)
    requires IsSymbol(c)
    ensures Symbol(SymbolValue(c)) == c
  {
  }

  predicate IsPrintableAscii(b: seq<Byte>) {
    forall i :: 0 <= i < |b| ==> 32 <= b[i] < 128
  }

  lemma NoDashEarly(x: Byte, y: Byte, z: Byte)
    requires x < 128 && y < 128 && z < 128
    ensures x / 4 != 62 && x % 4 * 16 != 62 && x % 4 * 16 + y / 16 != 62 && y % 16 * 4 != 62 && y % 16 * 4 + z / 64 != 62
  {
  }

  lemma FirstGroup(b: seq<Byte>, i: nat)
    requires |b| >= 3 && i < 4
    ensures |Sextets(b)| >= 4
    ensures Sextets(b)[i] == if i == 0 then b[0] / 4
                             else if i == 1 then b[0] % 4 * 16 + b[1] / 16
                             else if i == 2 then b[1] % 16 * 4 + b[2] / 64
                             else b[2] % 64
  {
  }

  lemma NoDashInFront(b: seq<Byte>, i: nat)
    requires IsPrintableAscii(b) && b != [] && i < |Sextets(b)| && i < 3
    ensures Sextets(b)[i] != 62
  {
    if |b| >= 3 {
      FirstGroup(b, i);
      NoDashEarly(b[0], b[1], b[2]);
    } else {
      NoDashEarly(b[0], b[|b| - 1], 0);
    }
  }

  /** Bytes of printable ASCII put the sextet 62 only where a group of four ends. */
  lemma {:induction false} DashOnlyAtGroupEnds(b: seq<Byte>, i: nat)
    requires IsPrintableAscii(b) && i < |Sextets(b)| && Sextets(b)[i] == 62
    ensures i % 4 == 3
  {
    if i < 3 {
      NoDashInFront(b, i);
    } else if i > 3 {
      assert Sextets(b)[i] == Sextets(b[3..])[i - 4];
      DashOnlyAtGroupEnds(b[3..], i - 4);
    }
  }

  lemma {:induction false} SextetCount(b: seq<Byte>)
    ensures |Sextets(b)| == |b| / 3 * 4 + (if |b| % 3 == 0 then 0 else |b| % 3 + 1)
  {
    if |b| >= 3 {
      SextetCount(b[3..]);
      assert (|b| - 3) / 3 == |b| / 3 - 1;
    }
  }

  /** The last sextet of a text that ends in a closing brace. */
  lemma {:induction false} LastOfBrace(b: seq<Byte>)
    requires b != [] && b[|b| - 1] == 125
    ensures Sextets(b) != [] && Sextets(b)[|Sextets(b)| - 1] in {61, 16, 52}
  {
    if |b| > 3 {
      LastOfBrace(b[3..]);
    }
  }
}
