/** Licence records hidden in the program's file name: `gen_name`
    (rustdesk-master/src/naming.rs) and `get_custom_server_from_string`
    (rustdesk-master/src/custom_server.rs), over ASCII names. */
module CustomServer {
  import opened Wrappers
  import opened Strings
  import opened Base64Url
  import J = Json

  datatype CustomServer = CustomServer(key: string, host: string, api: string, relay: string) {
    predicate Ascii() {
      IsAscii(key) && IsAscii(host) && IsAscii(api) && IsAscii(relay)
    }
  }

  /** `CustomServer::default()`. */
  const BLANK := CustomServer("", "", "", "")

  predicate IsAscii(s: string) {
    forall i :: 0 <= i < |s| ==> s[i] as int < 128
  }

  // ---- writing a record ---------------------------------------------------

  function HexDigit(d: int): char
    requires 0 <= d < 16
  {
    if d < 10 then (48 + d) as char else (87 + d) as char
  }

  /** How the JSON serializer writes one character inside a string. */
  function SerdeChar(c: char): string {
    if c == '"' then "\\\""
    else if c == '\\' then "\\\\"
    else if c as int == 8 then "\\b"
    else if c as int == 9 then "\\t"
    else if c as int == 10 then "\\n"
    else if c as int == 12 then "\\f"
    else if c as int == 13 then "\\r"
    else if c as int < 32 then "\\u00" + [HexDigit(c as int / 16), HexDigit(c as int % 16)]
    else [c]
  }

  function SerdeChars(s: string): string {
    if s == "" then "" else SerdeChar(s[0]) + SerdeChars(s[1..])
  }

  function SerdeMember(key: string, x: string): J.Member {
    J.Member(key, J.Quote(SerdeChars(x)), J.Str(x))
  }

  function Members(lic: CustomServer): seq<J.Member> {
    [SerdeMember("key", lic.key), SerdeMember("host", lic.host),
     SerdeMember("api", lic.api), SerdeMember("relay", lic.relay)]
  }

  function ToJson(lic: CustomServer): string {
    J.ObjectText(Members(lic))
  }

  function ToBytes(s: string): (b: seq<Byte>)
    requires IsAscii(s)
    ensures |b| == |s| && forall i :: 0 <= i < |s| ==> b[i] == s[i] as int
  {
    seq(|s|, i requires 0 <= i < |s| => s[i] as int)
  }

  /** Serialize, encode, and reverse. */
  function GenName(lic: CustomServer): string {
    Reverse(Encode(ToUtf8(ToJson(lic))))
  }

  // ---- reading a record ---------------------------------------------------

  predicate IsContinuation(b: seq<Byte>, i: nat) {
    i < |b| && 0x80 <= b[i] < 0xC0
  }

  /** The first character of UTF-8 bytes and the number of bytes it takes (section 4 of
      RFC 3629): no overlong forms, no surrogates, nothing beyond U+10FFFF. */
  function FirstChar(b: seq<Byte>): (r: Option<(char, nat)>)
    requires b != []
    ensures r.Some? ==> 1 <= r.value.1 <= |b|
    ensures b[0] < 0x80 ==> r == Some((b[0] as char, 1))
  {
    if b[0] < 0x80 then Some((b[0] as char, 1))
    else if 0xC2 <= b[0] < 0xE0 && IsContinuation(b, 1) then
      Some((((b[0] as int - 0xC0) * 64 + (b[1] as int - 0x80)) as char, 2))
    else if 0xE0 <= b[0] < 0xF0 && IsContinuation(b, 1) && IsContinuation(b, 2) then
      var n := (b[0] as int - 0xE0) * 4096 + (b[1] as int - 0x80) * 64 + (b[2] as int - 0x80);
      if 0x800 <= n < 0xD800 || 0xE000 <= n then Some((n as char, 3)) else None
    else if 0xF0 <= b[0] < 0xF5 && IsContinuation(b, 1) && IsContinuation(b, 2) && IsContinuation(b, 3) then
      var n := (b[0] as int - 0xF0) * 0x4_0000 + (b[1] as int - 0x80) * 4096 + (b[2] as int - 0x80) * 64
               + (b[3] as int - 0x80);
      if 0x1_0000 <= n < 0x11_0000 then Some((n as char, 4)) else None
    else None
  }

  function FromUtf8(b: seq<Byte>): Option<string> {
    if b == [] then Some("")
    else
      match FirstChar(b)
      case None => None
      case Some((c, n)) =>
        match FromUtf8(b[n..])
        case None => None
        case Some(rest) => Some([c] + rest)
  }

  function CharToUtf8(c: char): (b: seq<Byte>)
    ensures b != []
  {
    var n := c as int;
    if n < 0x80 then [n]
    else if n < 0x800 then [0xC0 + n / 64, 0x80 + n % 64]
    else if n < 0x1_0000 then [0xE0 + n / 4096, 0x80 + n / 64 % 64, 0x80 + n % 64]
    else [0xF0 + n / 0x4_0000, 0x80 + n / 4096 % 64, 0x80 + n / 64 % 64, 0x80 + n % 64]
  }

  function ToUtf8(s: string): seq<Byte> {
    if s == "" then [] else CharToUtf8(s[0]) + ToUtf8(s[1..])
  }

  lemma Digits64(n: nat)
    ensures n == n / 64 * 64 + n % 64 && n / 64 / 64 == n / 4096 && n / 4096 / 64 == n / 0x4_0000
  {
  }

  lemma FirstOfTwo(c: char, b: seq<Byte>)
    requires 0x80 <= c as int < 0x800 && CharToUtf8(c) <= b
    ensures FirstChar(b) == Some((c, 2))
  {
    assert b[0] == CharToUtf8(c)[0] && b[1] == CharToUtf8(c)[1];
  }

  lemma FirstOfThree(c: char, b: seq<Byte>)
    requires 0x800 <= c as int < 0x1_0000 && CharToUtf8(c) <= b
    ensures FirstChar(b) == Some((c, 3))
  {
    Digits64(c as int);
    Digits64(c as int / 64);
    assert b[0] == CharToUtf8(c)[0] && b[1] == CharToUtf8(c)[1] && b[2] == CharToUtf8(c)[2];
  }

  lemma FirstOfFour(c: char, b: seq<Byte>)
    requires 0x1_0000 <= c as int && CharToUtf8(c) <= b
    ensures FirstChar(b) == Some((c, 4))
  {
    Digits64(c as int);
    Digits64(c as int / 64);
    Digits64(c as int / 4096);
    assert b[0] == CharToUtf8(c)[0] && b[1] == CharToUtf8(c)[1];
    assert b[2] == CharToUtf8(c)[2] && b[3] == CharToUtf8(c)[3];
  }

  lemma FirstOfChar(c: char, more: seq<Byte>)
    ensures FirstChar(CharToUtf8(c) + more) == Some((c, |CharToUtf8(c)|))
  {
    var b := CharToUtf8(c) + more;
    if c as int < 0x80 {
      assert b[0] == c as int;
    } else if c as int < 0x800 {
      FirstOfTwo(c, b);
    } else if c as int < 0x1_0000 {
      FirstOfThree(c, b);
    } else {
      FirstOfFour(c, b);
    }
  }

  /** UTF-8 reads back, whatever the text. */
  lemma {:induction false} Utf8Reads(s: string)
    ensures FromUtf8(ToUtf8(s)) == Some(s)
  {
    if s != "" {
      FirstOfChar(s[0], ToUtf8(s[1..]));
      assert ToUtf8(s)[|CharToUtf8(s[0])|..] == ToUtf8(s[1..]);
      Utf8Reads(s[1..]);
      assert s == [s[0]] + s[1..];
    }
  }

  lemma Compose(a: nat, k: nat)
    requires k < 64
    ensures (a * 64 + k) / 64 == a && (a * 64 + k) % 64 == k
  {
  }

  lemma TwoBytes(c: char, a: nat, k: nat)
    requires c as int == a * 64 + k && k < 64 && 2 <= a < 32
    ensures CharToUtf8(c) == [0xC0 + a, 0x80 + k]
  {
    Compose(a, k);
  }

  lemma ThreeBytes(c: char, a: nat, k: nat, l: nat)
    requires c as int == (a * 64 + k) * 64 + l && k < 64 && l < 64 && a < 16 && 0x800 <= c as int
    ensures CharToUtf8(c) == [0xE0 + a, 0x80 + k, 0x80 + l]
  {
    Digits64(c as int);
    Compose(a * 64 + k, l);
    Compose(a, k);
  }

  lemma FourBytes(c: char, a: nat, k: nat, l: nat, m: nat)
    requires c as int == ((a * 64 + k) * 64 + l) * 64 + m && k < 64 && l < 64 && m < 64 && a < 5 && 0x1_0000 <= c as int
    ensures CharToUtf8(c) == [0xF0 + a, 0x80 + k, 0x80 + l, 0x80 + m]
  {
    Digits64(c as int);
    Compose((a * 64 + k) * 64 + l, m);
    Compose(a * 64 + k, l);
    Compose(a, k);
  }

  lemma CharOfFirst(b: seq<Byte>)
    requires b != [] && FirstChar(b).Some?
    ensures var (c, n) := FirstChar(b).value; b[..n] == CharToUtf8(c)
  {
    var (c, n) := FirstChar(b).value;
    if n == 2 {
      TwoBytes(c, b[0] - 0xC0, b[1] - 0x80);
    } else if n == 3 {
      ThreeBytes(c, b[0] - 0xE0, b[1] - 0x80, b[2] - 0x80);
    } else if n == 4 {
      FourBytes(c, b[0] - 0xF0, b[1] - 0x80, b[2] - 0x80, b[3] - 0x80);
    }
  }

  /** And there is only one way to write it: what reads as a text is its encoding. */
  lemma {:induction false} Utf8Canonical(b: seq<Byte>)
    requires FromUtf8(b).Some?
    ensures ToUtf8(FromUtf8(b).value) == b
  {
    if b != [] {
      var n := FirstChar(b).value.1;
      Utf8Canonical(b[n..]);
      CanonicalStep(b, FirstChar(b).value.0, n, FromUtf8(b[n..]).value);
    }
  }

  lemma CanonicalStep(b: seq<Byte>, c: char, n: nat, rest: string)
    requires b != [] && FirstChar(b) == Some((c, n)) && ToUtf8(rest) == b[n..]
    ensures ToUtf8([c] + rest) == b
  {
    CharOfFirst(b);
    assert ([c] + rest)[1..] == rest;
    assert b == b[..n] + b[n..];
  }

  lemma {:induction false} AsciiIsUtf8(s: string)
    requires IsAscii(s)
    ensures ToUtf8(s) == ToBytes(s)
  {
    if s != "" {
      AsciiIsUtf8(s[1..]);
      assert ToBytes(s) == [s[0] as int] + ToBytes(s[1..]);
    }
  }

  predicate IsField(key: string) {
    key == "key" || key == "host" || key == "api" || key == "relay"
  }

  /** The members that name a field; others are ignored, a repeated field or one that is
      not a string is an error. */
  function Collect(ms: seq<(string, J.Value)>, got: map<string, string>): Option<map<string, string>> {
    if ms == [] then Some(got)
    else
      var (key, v) := ms[0];
      if !IsField(key) then Collect(ms[1..], got)
      else if key in got || !v.Str? then None
      else Collect(ms[1..], got[key := v.s])
  }

  function OrEmpty(got: map<string, string>, key: string): string {
    if key in got then got[key] else ""
  }

  function StrAt(items: seq<J.Value>, i: nat): string {
    if i < |items| && items[i].Str? then items[i].s else ""
  }

  /** The derived deserializer: an object of fields, or the fields in order as an array. */
  function FromValue(v: J.Value): Option<CustomServer> {
    match v
    case Obj(ms) =>
      (match Collect(ms, map[])
       case None => None
       case Some(got) =>
         Some(CustomServer(OrEmpty(got, "key"), OrEmpty(got, "host"), OrEmpty(got, "api"), OrEmpty(got, "relay"))))
    case Arr(items) =>
      if |items| > 4 || exists i :: 0 <= i < |items| && !items[i].Str? then None
      else Some(CustomServer(StrAt(items, 0), StrAt(items, 1), StrAt(items, 2), StrAt(items, 3)))
    case _ => None
  }

  function FromSlice(data: seq<Byte>): Option<CustomServer> {
    match FromUtf8(data)
    case None => None
    case Some(text) =>
      match J.Parse(text)
      case Malformed => None
      case Text(v) => FromValue(v)
  }

  const SIGNATURE_BYTES: nat := 64

  /** Signature verification against the built-in key; `None` is a failed verification. */
  type Verifier = seq<Byte> -> Option<seq<Byte>>

  function FromConfigString(s: string, verify: Verifier): Option<CustomServer> {
    match Decode(Reverse(s))
    case Invalid => None
    case Bytes(data) =>
      if FromSlice(data).Some? then FromSlice(data)
      else if |data| < SIGNATURE_BYTES then None
      else match verify(data)
           case None => None
           case Some(signed) => FromSlice(signed)
  }

  // ---- the file name ------------------------------------------------------

  function StripExe(s: string): string {
    if EndsWith(Lower(s), ".exe.exe") then s[..|s| - 8]
    else if EndsWith(Lower(s), ".exe") then s[..|s| - 4]
    else s
  }

  /** One comma-separated piece of a `host=` name. */
  function ReadPiece(r: CustomServer, el: string): CustomServer {
    var low := Lower(el);
    var r1 := if "host=" <= low then r.(host := el[5..]) else r;
    var r2 := if "key=" <= low then r1.(key := el[4..]) else r1;
    var r3 := if "api=" <= low then r2.(api := el[4..]) else r2;
    if "relay=" <= low then r3.(relay := el[6..]) else r3
  }

  function ReadPieces(pieces: seq<string>): CustomServer {
    if pieces == [] then BLANK
    else ReadPiece(ReadPieces(pieces[..|pieces| - 1]), pieces[|pieces| - 1])
  }

  /** From the first `host=` on. */
  function HostPart(s: string): string
    requires Contains(Lower(s), "host=")
  {
    s[Find(Lower(s), "host=")..]
  }

  function FromHostName(s: string): CustomServer
    requires Contains(Lower(s), "host=")
  {
    ReadPieces(Split(HostPart(s), ","))
  }

  const LICENSED3 := "-licensed---"
  const LICENSED2 := "-licensed--"
  const LICENSED1 := "-licensed-"

  function Normalize(s: string): string {
    Replace(Replace(Replace(s, LICENSED3, "--"), LICENSED2, "--"), LICENSED1, "--")
  }

  function FirstRecord(parts: seq<string>, verify: Verifier): Option<CustomServer> {
    if parts == [] then None
    else if FromConfigString(Trim(parts[0]), verify).Some? then FromConfigString(Trim(parts[0]), verify)
    else FirstRecord(parts[1..], verify)
  }

  function FromPiece(s: string, verify: Verifier): Option<CustomServer> {
    if FromConfigString(Trim(s), verify).Some? then FromConfigString(Trim(s), verify)
    else if Contains(s, "(") then FirstRecord(Split(s, "("), verify)
    else None
  }

  function FirstPiece(pieces: seq<string>, verify: Verifier): Option<CustomServer> {
    if pieces == [] then None
    else if FromPiece(pieces[0], verify).Some? then FromPiece(pieces[0], verify)
    else FirstPiece(pieces[1..], verify)
  }

  function FromName(name: string, verify: Verifier): Option<CustomServer> {
    var s := StripExe(name);
    if Contains(Lower(s), "host=") then Some(FromHostName(s))
    else FirstPiece(Split(Normalize(s), "--"), verify)
  }

  /** The loop over the comma-separated pieces of a `host=` name. */
  method ReadHostPieces(strs: seq<string>) returns (r: CustomServer)
    ensures r == ReadPieces(strs)
  {
    var host, key, api, relay := "", "", "", "";
    for k := 0 to |strs|
      invariant CustomServer(key, host, api, relay) == ReadPieces(strs[..k])
    {
      var el := strs[k];
      var elLower := Lower(el);
      assert strs[..k + 1][..k] == strs[..k];
      if "host=" <= elLower {
        host := el[5..];
      }
      if "key=" <= elLower {
        key := el[4..];
      }
      if "api=" <= elLower {
        api := el[4..];
      }
      if "relay=" <= elLower {
        relay := el[6..];
      }
    }
    assert strs[..|strs|] == strs;
    return CustomServer(key, host, api, relay);
  }

  /** The inner loop, over the parts between parentheses. */
  method TryParts(parts: seq<string>, verify: Verifier) returns (r: Option<CustomServer>)
    ensures r == FirstRecord(parts, verify)
  {
    for j := 0 to |parts|
      invariant FirstRecord(parts, verify) == FirstRecord(parts[j..], verify)
    {
      var lic := FromConfigString(Trim(parts[j]), verify);
      assert parts[j..][0] == parts[j] && parts[j..][1..] == parts[j + 1..];
      if lic.Some? {
        return lic;
      }
    }
    return None;
  }

  /** The outer loop, over the parts between double dashes, leaving at the first record. */
  method TryPieces(strs: seq<string>, verify: Verifier) returns (r: Option<CustomServer>)
    ensures r == FirstPiece(strs, verify)
  {
    for k := 0 to |strs|
      invariant FirstPiece(strs, verify) == FirstPiece(strs[k..], verify)
    {
      r := FromConfigString(Trim(strs[k]), verify);
      if r.None? && Contains(strs[k], "(") {
        r := TryParts(Split(strs[k], "("), verify);
      }
      assert strs[k..][0] == strs[k] && strs[k..][1..] == strs[k + 1..];
      assert r == FromPiece(strs[k], verify);
      if r.Some? {
        return;
      }
    }
    return None;
  }

  method GetCustomServerFromString(name: string, verify: Verifier) returns (r: Option<CustomServer>)
    ensures r == FromName(name, verify)
  {
    var s := StripExe(name);
    if Contains(Lower(s), "host=") {
      var lic := ReadHostPieces(Split(HostPart(s), ","));
      return Some(lic);
    }
    r := TryPieces(Split(Normalize(s), "--"), verify);
  }

  // ---- a written record reads back ----------------------------------------

  lemma {:induction false} SerdeCharsPrintable(s: string)
    requires IsAscii(s)
    ensures forall i :: 0 <= i < |SerdeChars(s)| ==> 32 <= SerdeChars(s)[i] as int < 128
  {
    if s != "" {
      SerdeCharsPrintable(s[1..]);
      var c := SerdeChar(s[0]);
      assert forall i :: 0 <= i < |c| ==> 32 <= c[i] as int < 128;
    }
  }

  predicate PrintableText(s: string) {
    forall i :: 0 <= i < |s| ==> 32 <= s[i] as int < 128
  }

  lemma {:induction false} MembersPrintable(ms: seq<J.Member>)
    requires forall i :: 0 <= i < |ms| ==> PrintableText(ms[i].key) && PrintableText(ms[i].text)
    ensures PrintableText(J.MembersText(ms))
  {
    if ms != [] {
      MembersPrintable(ms[1..]);
    }
  }

  lemma MemberPrintable(key: string, x: string)
    requires IsAscii(x) && PrintableText(key)
    ensures PrintableText(SerdeMember(key, x).key) && PrintableText(SerdeMember(key, x).text)
  {
    SerdeCharsPrintable(x);
  }

  lemma AllPrintable(lic: CustomServer)
    requires lic.Ascii()
    ensures PrintableText(J.MembersText(Members(lic)))
  {
    MemberPrintable("key", lic.key);
    MemberPrintable("host", lic.host);
    MemberPrintable("api", lic.api);
    MemberPrintable("relay", lic.relay);
    MembersPrintable(Members(lic));
  }

  /** The serialized record is printable ASCII between braces. */
  lemma SerdeAscii(lic: CustomServer)
    requires lic.Ascii()
    ensures IsAscii(ToJson(lic)) && IsPrintableAscii(ToBytes(ToJson(lic)))
    ensures |ToJson(lic)| >= 2 && ToJson(lic)[0] == '{' && ToJson(lic)[|ToJson(lic)| - 1] == '}'
    ensures ToUtf8(ToJson(lic)) == ToBytes(ToJson(lic))
  {
    AllPrintable(lic);
    Braced(J.MembersText(Members(lic)));
    AsciiIsUtf8(ToJson(lic));
  }

  lemma Braced(m: string)
    requires PrintableText(m)
    ensures PrintableText("{" + m + "}")
  {
  }

  lemma SerdeCharStep(c: char, more: string)
    ensures J.ReadChars(SerdeChar(c) + more) == match J.ReadChars(more)
                                                case Fail => J.Fail
                                                case Got(x, rest) => J.Got([c] + x, rest)
  {
    var s := SerdeChar(c) + more;
    if |SerdeChar(c)| == 1 {
      assert s[1..] == more;
    } else {
      EscapeReads(c, more);
    }
  }

  lemma EscapeReads(c: char, more: string)
    requires |SerdeChar(c)| > 1
    ensures var s := SerdeChar(c) + more; s[0] == '\\' && J.ReadEscape(s[1..]) == J.Got(c, more)
  {
    var s := SerdeChar(c) + more;
    if |SerdeChar(c)| == 2 {
      assert s[1..][0] == SerdeChar(c)[1] && s[1..][1..] == more;
    } else {
      HexEscapeReads(c as int, more, s[1..]);
    }
  }

  lemma HexEscapeReads(n: int, more: string, t: string)
    requires 0 <= n < 32 && t == "u00" + [HexDigit(n / 16), HexDigit(n % 16)] + more
    ensures J.ReadEscape(t) == J.Got(n as char, more)
  {
    HexReads(n, more);
    assert t[0] == 'u';
    assert t[1..] == "00" + [HexDigit(n / 16), HexDigit(n % 16)] + more;
  }

  lemma HexReads(n: int, more: string)
    requires 0 <= n < 32
    ensures J.ReadUnit("00" + [HexDigit(n / 16), HexDigit(n % 16)] + more) == J.Got(n, more)
  {
    var t := "00" + [HexDigit(n / 16), HexDigit(n % 16)] + more;
    assert t[0] == '0' && t[1] == '0' && t[2] == HexDigit(n / 16) && t[3] == HexDigit(n % 16) && t[4..] == more;
    HexDigitValue(n / 16);
    HexDigitValue(n % 16);
  }

  lemma HexDigitValue(d: int)
    requires 0 <= d < 16
    ensures J.HexValue(HexDigit(d)) == d
  {
  }

  lemma SerdeCharsStep(x: string, tail: string)
    requires x != ""
    ensures SerdeChars(x) + tail == SerdeChar(x[0]) + (SerdeChars(x[1..]) + tail)
  {
  }

  lemma SerdeEnds(rest: string)
    ensures J.ReadChars(SerdeChars("") + ("\"" + rest)) == J.Got("", rest)
  {
    assert SerdeChars("") + ("\"" + rest) == "\"" + rest;
    assert ("\"" + rest)[1..] == rest;
  }

  lemma SerdeReadsOne(c: char, x: string, more: string, rest: string)
    requires J.ReadChars(more) == J.Got(x, rest)
    ensures J.ReadChars(SerdeChar(c) + more) == J.Got([c] + x, rest)
  {
    SerdeCharStep(c, more);
  }

  lemma {:induction false} SerdeReads(x: string, rest: string)
    ensures J.ReadChars(SerdeChars(x) + ("\"" + rest)) == J.Got(x, rest)
  {
    if x == "" {
      SerdeEnds(rest);
    } else {
      SerdeCharsStep(x, "\"" + rest);
      SerdeReads(x[1..], rest);
      SerdeReadsOne(x[0], x[1..], SerdeChars(x[1..]) + ("\"" + rest), rest);
      assert x == [x[0]] + x[1..];
    }
  }

  lemma SerdeMemberReads(key: string, x: string)
    requires J.IsPlain(key)
    ensures J.WellPrinted(SerdeMember(key, x))
  {
    forall rest: string ensures J.ReadChars(SerdeChars(x) + ("\"" + rest)) == J.Got(x, rest) {
      SerdeReads(x, rest);
    }
    J.QuotedReads(SerdeChars(x), x);
  }

  /** Whatever the fields hold, the record written is the record read. */
  lemma RecordReadsBack(lic: CustomServer)
    ensures FromSlice(ToUtf8(ToJson(lic))) == Some(lic)
  {
    var ms := Members(lic);
    Utf8Reads(ToJson(lic));
    MembersWellPrinted(lic);
    J.ObjectReads(ms);
    J.ParseWhole(ToJson(lic), J.Obj(J.Meanings(ms)));
    MembersMean(lic);
    CollectFour(J.Meanings(ms), lic);
  }

  lemma MembersWellPrinted(lic: CustomServer)
    ensures forall i :: 0 <= i < |Members(lic)| ==> J.WellPrinted(Members(lic)[i])
  {
    SerdeMemberReads("key", lic.key);
    SerdeMemberReads("host", lic.host);
    SerdeMemberReads("api", lic.api);
    SerdeMemberReads("relay", lic.relay);
  }

  lemma MembersMean(lic: CustomServer)
    ensures J.Meanings(Members(lic)) ==
            [("key", J.Str(lic.key)), ("host", J.Str(lic.host)), ("api", J.Str(lic.api)), ("relay", J.Str(lic.relay))]
  {
    var ms := Members(lic);
    forall i | 0 <= i < 4 ensures J.Meanings(ms)[i] == (ms[i].key, ms[i].value) {
      J.MeaningsAt(ms, i);
    }
  }

  lemma CollectFour(fields: seq<(string, J.Value)>, lic: CustomServer)
    requires fields == [("key", J.Str(lic.key)), ("host", J.Str(lic.host)), ("api", J.Str(lic.api)), ("relay", J.Str(lic.relay))]
    ensures FromValue(J.Obj(fields)) == Some(lic)
  {
    var m1 := map["key" := lic.key];
    var m2 := m1["host" := lic.host];
    var m3 := m2["api" := lic.api];
    var m4 := m3["relay" := lic.relay];
    assert Collect(fields[4..], m4) == Some(m4);
    assert fields[3..][1..] == fields[4..] && Collect(fields[3..], m3) == Some(m4);
    assert fields[2..][1..] == fields[3..] && Collect(fields[2..], m2) == Some(m4);
    assert fields[1..][1..] == fields[2..] && Collect(fields[1..], m1) == Some(m4);
    assert fields[0..] == fields && Collect(fields, map[]) == Some(m4);
  }

  lemma TokenDecodes(lic: CustomServer, verify: Verifier)
    ensures FromConfigString(GenName(lic), verify) == Some(lic)
  {
    RecordReadsBack(lic);
    BlobDecodes(ToUtf8(ToJson(lic)));
  }

  lemma BlobDecodes(data: seq<Byte>)
    ensures Decode(Reverse(Reverse(Encode(data)))) == Bytes(data)
  {
    ReverseReverse(Encode(data));
    DecodeEncode(data);
  }

  // ---- signed blobs -------------------------------------------------------

  /** A token for bytes that are no record themselves counts for exactly what the signature
      check makes of them, and for nothing if it rejects them or they cannot hold a
      signature. */
  lemma SignedToken(data: seq<Byte>, verify: Verifier)
    requires FromSlice(data) == None
    ensures FromConfigString(Reverse(Encode(data)), verify) ==
            if |data| >= 64 && verify(data).Some? then FromSlice(verify(data).value) else None
  {
    BlobDecodes(data);
  }

  /** So a signed record comes back, and a rejected one does not. */
  lemma SignedRecordReadsBack(data: seq<Byte>, lic: CustomServer, verify: Verifier)
    requires FromSlice(data) == None && |data| >= 64
    ensures verify(data) == Some(ToUtf8(ToJson(lic))) ==> FromConfigString(Reverse(Encode(data)), verify) == Some(lic)
    ensures verify(data) == None ==> FromConfigString(Reverse(Encode(data)), verify) == None
  {
    SignedToken(data, verify);
    RecordReadsBack(lic);
  }

  // ---- which objects are records ------------------------------------------

  /** Every field given is a string, and none is given twice or is among `seen`. */
  ghost predicate Proper(ms: seq<(string, J.Value)>, seen: set<string>) {
    && (forall i :: 0 <= i < |ms| && IsField(ms[i].0) ==> ms[i].1.Str? && ms[i].0 !in seen)
    && (forall i, j :: 0 <= i < j < |ms| && IsField(ms[i].0) ==> ms[i].0 != ms[j].0)
  }

  ghost predicate GivenAs(ms: seq<(string, J.Value)>, key: string, x: string) {
    exists i :: 0 <= i < |ms| && ms[i].0 == key && ms[i].1 == J.Str(x)
  }

  lemma ProperStep(ms: seq<(string, J.Value)>, seen: set<string>)
    requires ms != []
    ensures Proper(ms, seen) <==>
            if IsField(ms[0].0) then ms[0].1.Str? && ms[0].0 !in seen && Proper(ms[1..], seen + {ms[0].0})
            else Proper(ms[1..], seen)
  {
    var rest := ms[1..];
    assert forall i :: 0 <= i < |rest| ==> rest[i] == ms[i + 1];
    assert forall i :: 0 < i < |ms| ==> ms[i] == rest[i - 1];
  }

  lemma {:induction false} CollectExactly(ms: seq<(string, J.Value)>, got: map<string, string>)
    ensures Collect(ms, got).Some? <==> Proper(ms, got.Keys)
    ensures Collect(ms, got).Some? ==>
              var all := Collect(ms, got).value;
              && (forall k :: k in got ==> k in all && all[k] == got[k])
              && (forall i :: 0 <= i < |ms| && IsField(ms[i].0) ==> ms[i].0 in all && ms[i].1 == J.Str(all[ms[i].0]))
              && (forall k :: k in all && k !in got ==> IsField(k) && GivenAs(ms, k, all[k]))
  {
    if ms != [] {
      var (key, v) := ms[0];
      ProperStep(ms, got.Keys);
      var rest := ms[1..];
      assert forall i :: 0 < i < |ms| ==> ms[i] == rest[i - 1];
      if !IsField(key) {
        CollectExactly(rest, got);
        GivenLater(ms);
      } else if key !in got && v.Str? {
        assert got[key := v.s].Keys == got.Keys + {key};
        CollectExactly(rest, got[key := v.s]);
        GivenLater(ms);
        assert GivenAs(ms, key, v.s);
      }
    }
  }

  lemma GivenLater(ms: seq<(string, J.Value)>)
    requires ms != []
    ensures forall k, x :: GivenAs(ms[1..], k, x) ==> GivenAs(ms, k, x)
  {
    forall k, x | GivenAs(ms[1..], k, x) ensures GivenAs(ms, k, x) {
      var i :| 0 <= i < |ms| - 1 && ms[1..][i].0 == k && ms[1..][i].1 == J.Str(x);
      assert ms[i + 1] == ms[1..][i];
    }
  }

  /** So is an array of up to four strings, the fields in their order. */
  lemma ArrayIsRecord(items: seq<J.Value>)
    ensures FromValue(J.Arr(items)).Some? <==> |items| <= 4 && forall i :: 0 <= i < |items| ==> items[i].Str?
    ensures FromValue(J.Arr(items)).Some? ==>
              var lic := FromValue(J.Arr(items)).value;
              forall i :: 0 <= i < 4 ==>
                [lic.key, lic.host, lic.api, lic.relay][i] == if i < |items| then items[i].s else ""
  {
  }

  /** An object is a record exactly when every field it gives is a string given once; other
      members do not matter, and each field is what the object says, or empty. */
  lemma ObjectIsRecord(ms: seq<(string, J.Value)>)
    ensures FromValue(J.Obj(ms)).Some? <==> Proper(ms, {})
    ensures FromValue(J.Obj(ms)).Some? ==>
              var lic := FromValue(J.Obj(ms)).value;
              && (lic.key == "" || GivenAs(ms, "key", lic.key)) && (lic.host == "" || GivenAs(ms, "host", lic.host))
              && (lic.api == "" || GivenAs(ms, "api", lic.api)) && (lic.relay == "" || GivenAs(ms, "relay", lic.relay))
    ensures FromValue(J.Obj(ms)).Some? ==>
              var lic := FromValue(J.Obj(ms)).value;
              forall i :: 0 <= i < |ms| ==>
                && (ms[i].0 == "key" ==> ms[i].1 == J.Str(lic.key)) && (ms[i].0 == "host" ==> ms[i].1 == J.Str(lic.host))
                && (ms[i].0 == "api" ==> ms[i].1 == J.Str(lic.api)) && (ms[i].0 == "relay" ==> ms[i].1 == J.Str(lic.relay))
  {
    var none: map<string, string> := map[];
    assert none.Keys == {};
    CollectExactly(ms, none);
  }
}
