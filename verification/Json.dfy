/** A reader for JSON texts (RFC 8259), written independently of every printer in
    this project, and the lemmas that say which printed texts it reads back. */
module Json {

  datatype Value =
    | Null
    | Bool(b: bool)
    | Number(lexeme: string)
    | Str(s: string)
    | Arr(items: seq<Value>)
    | Obj(members: seq<(string, Value)>)

  /** A value and the unread input, or a syntax error. */
  datatype Read<+T> = Fail | Got(value: T, rest: string) {
    predicate IsFailure() {
      Fail?
    }
    function PropagateFailure<U>(): Read<U>
      requires Fail?
    {
      Fail
    }
    function Extract(): (T, string)
      requires Got?
    {
      (value, rest)
    }
  }

  // ---- lexical level ------------------------------------------------------

  predicate IsWs(c: char) {
    c == ' ' || c == '\t' || c == '\n' || c == '\r'
  }

  function SkipWs(s: string): (r: string)
    ensures |r| <= |s|
  {
    if s != "" && IsWs(s[0]) then SkipWs(s[1..]) else s
  }

  predicate IsControl(c: char) {
    c < ' '
  }

  function HexValue(c: char): int {
    if '0' <= c <= '9' then c as int - 48
    else if 'a' <= c <= 'f' then c as int - 87
    else if 'A' <= c <= 'F' then c as int - 55
    else -1
  }

  /** Four hexadecimal digits. */
  function ReadUnit(s: string): (r: Read<int>)
    ensures r.Got? ==> 0 <= r.value < 0x1_0000 && |r.rest| < |s|
  {
    if |s| < 4 || HexValue(s[0]) < 0 || HexValue(s[1]) < 0 || HexValue(s[2]) < 0 || HexValue(s[3]) < 0 then Fail
    else Got(HexValue(s[0]) * 4096 + HexValue(s[1]) * 256 + HexValue(s[2]) * 16 + HexValue(s[3]), s[4..])
  }

  /** What follows a backslash; a high surrogate must be followed by an escaped low one. */
  function ReadEscape(s: string): (r: Read<char>)
    ensures r.Got? ==> |r.rest| < |s|
  {
    if s == "" then Fail
    else if s[0] == '"' || s[0] == '\\' || s[0] == '/' then Got(s[0], s[1..])
    else if s[0] == 'b' then Got(8 as char, s[1..])
    else if s[0] == 'f' then Got(12 as char, s[1..])
    else if s[0] == 'n' then Got('\n', s[1..])
    else if s[0] == 'r' then Got('\r', s[1..])
    else if s[0] == 't' then Got('\t', s[1..])
    else if s[0] == 'u' then
      var (hi, rest) :- ReadUnit(s[1..]);
      if hi < 0xD800 || 0xE000 <= hi then Got(hi as char, rest)
      else if 0xDC00 <= hi || |rest| < 2 || rest[0] != '\\' || rest[1] != 'u' then Fail
      else
        var (lo, rest2) :- ReadUnit(rest[2..]);
        if 0xDC00 <= lo < 0xE000 then Got((0x1_0000 + (hi - 0xD800) * 1024 + (lo - 0xDC00)) as char, rest2)
        else Fail
    else Fail
  }

  /** The characters of a string up to and including its closing quote. */
  function ReadChars(s: string): (r: Read<string>)
    ensures r.Got? ==> |r.rest| < |s|
    decreases |s|
  {
    if s == "" then Fail
    else if s[0] == '"' then Got("", s[1..])
    else if IsControl(s[0]) then Fail
    else
      var (c, rest) :- if s[0] == '\\' then ReadEscape(s[1..]) else Got(s[0], s[1..]);
      var (tail, rest2) :- ReadChars(rest);
      Got([c] + tail, rest2)
  }

  predicate IsDigit(c: char) {
    '0' <= c <= '9'
  }

  predicate IsNumberChar(c: char) {
    IsDigit(c) || c == '-' || c == '+' || c == '.' || c == 'e' || c == 'E'
  }

  /** Length of the run of digits at the front. */
  function DigitRun(s: string): (n: nat)
    ensures n <= |s|
  {
    if s != "" && IsDigit(s[0]) then 1 + DigitRun(s[1..]) else 0
  }

  function NumberRun(s: string): (n: nat)
    ensures n <= |s|
  {
    if s != "" && IsNumberChar(s[0]) then 1 + NumberRun(s[1..]) else 0
  }

  predicate IsExponent(s: string) {
    s == "" || ((s[0] == 'e' || s[0] == 'E') &&
                var d := if |s| > 1 && (s[1] == '+' || s[1] == '-') then s[2..] else s[1..];
                d != "" && DigitRun(d) == |d|)
  }

  predicate IsFraction(s: string) {
    if s != "" && s[0] == '.' then
      var n := DigitRun(s[1..]);
      n > 0 && IsExponent(s[1..][n..])
    else IsExponent(s)
  }

  /** `-? int frac? exp?` with no leading zero. */
  predicate IsNumber(s: string) {
    var u := if s != "" && s[0] == '-' then s[1..] else s;
    var n := DigitRun(u);
    n > 0 && (u[0] == '0' ==> n == 1) && IsFraction(u[n..])
  }

  // ---- values -------------------------------------------------------------

  function ReadValue(s: string): (r: Read<Value>)
    ensures r.Got? ==> |r.rest| < |s|
    decreases |s|, 0
  {
    var t := SkipWs(s);
    if t == "" then Fail
    else if t[0] == '"' then
      var (x, rest) :- ReadChars(t[1..]);
      Got(Str(x), rest)
    else if t[0] == '{' then
      var u := SkipWs(t[1..]);
      if u != "" && u[0] == '}' then Got(Obj([]), u[1..])
      else
        var (ms, rest) :- ReadMembers(t[1..]);
        Got(Obj(ms), rest)
    else if t[0] == '[' then
      var u := SkipWs(t[1..]);
      if u != "" && u[0] == ']' then Got(Arr([]), u[1..])
      else
        var (xs, rest) :- ReadItems(t[1..]);
        Got(Arr(xs), rest)
    else if "true" <= t then Got(Bool(true), t[4..])
    else if "false" <= t then Got(Bool(false), t[5..])
    else if "null" <= t then Got(Null, t[4..])
    else
      var n := NumberRun(t);
      if n > 0 && IsNumber(t[..n]) then Got(Number(t[..n]), t[n..]) else Fail
  }

  /** One or more `"key": value`, comma separated, and the closing brace. */
  function ReadMembers(s: string): (r: Read<seq<(string, Value)>>)
    ensures r.Got? ==> |r.rest| < |s|
    decreases |s|, 1
  {
    var t := SkipWs(s);
    if t == "" || t[0] != '"' then Fail
    else
      var (key, rest) :- ReadChars(t[1..]);
      var u := SkipWs(rest);
      if u == "" || u[0] != ':' then Fail
      else
        var (v, rest2) :- ReadValue(u[1..]);
        var w := SkipWs(rest2);
        if w == "" then Fail
        else if w[0] == '}' then Got([(key, v)], w[1..])
        else if w[0] == ',' then
          var (more, rest3) :- ReadMembers(w[1..]);
          Got([(key, v)] + more, rest3)
        else Fail
  }

  /** One or more values, comma separated, and the closing bracket. */
  function ReadItems(s: string): (r: Read<seq<Value>>)
    ensures r.Got? ==> |r.rest| < |s|
    decreases |s|, 1
  {
    var (v, rest) :- ReadValue(s);
    var w := SkipWs(rest);
    if w == "" then Fail
    else if w[0] == ']' then Got([v], w[1..])
    else if w[0] == ',' then
      var (more, rest2) :- ReadItems(w[1..]);
      Got([v] + more, rest2)
    else Fail
  }

  datatype Parsed = Malformed | Text(value: Value)

  /** A whole text: one value with nothing but white space after it. */
  function Parse(s: string): Parsed {
    match ReadValue(s)
    case Fail => Malformed
    case Got(v, rest) => if SkipWs(rest) == "" then Text(v) else Malformed
  }

  // ---- what the reader makes of printed texts -----------------------------

  /** `body` is the inside of a string literal that reads as `x`. */
  ghost predicate ReadsChars(body: string, x: string) {
    forall rest: string :: ReadChars(body + ("\"" + rest)) == Got(x, rest)
  }

  /** A character that may follow a value inside an array or object, or the end. */
  predicate Closes(rest: string) {
    rest == "" || rest[0] == ',' || rest[0] == '}' || rest[0] == ']'
  }

  /** `text` is a value, whatever legitimately follows it. */
  ghost predicate ReadsValue(text: string, v: Value) {
    forall rest: string :: Closes(rest) ==> ReadValue(text + rest) == Got(v, rest)
  }

  /** No continuation makes `text` readable. */
  ghost predicate Unreadable(text: string) {
    forall rest: string :: ReadValue(text + rest) == Fail
  }

  lemma FirstReads(text: string, v: Value, after: string)
    requires ReadsValue(text, v) && Closes(after)
    ensures ReadValue(text + after) == Got(v, after)
  {
  }

  function Quote(body: string): string {
    "\"" + body + "\""
  }

  // One unfolding of the reader at each kind of first character.

  lemma StringStep(t: string)
    requires t != "" && t[0] == '"'
    ensures ReadValue(t) == match ReadChars(t[1..])
                            case Fail => Fail
                            case Got(x, rest) => Got(Str(x), rest)
  {
  }

  lemma ObjectStep(t: string)
    requires |t| > 1 && t[0] == '{' && t[1] == '"'
    ensures ReadValue(t) == match ReadMembers(t[1..])
                            case Fail => Fail
                            case Got(ms, rest) => Got(Obj(ms), rest)
  {
    assert SkipWs(t[1..]) == t[1..];
  }

  lemma QuotedReadsRest(body: string, x: string, rest: string)
    requires ReadChars(body + ("\"" + rest)) == Got(x, rest)
    ensures ReadValue(Quote(body) + rest) == Got(Str(x), rest)
  {
    QuotedTail(body, rest);
    StringStep(Quote(body) + rest);
  }

  lemma QuotedTail(body: string, rest: string)
    ensures var t := Quote(body) + rest; t[0] == '"' && t[1..] == body + ("\"" + rest)
  {
  }

  lemma QuotedReads(body: string, x: string)
    requires ReadsChars(body, x)
    ensures ReadsValue(Quote(body), Str(x))
  {
    forall rest: string | Closes(rest) ensures ReadValue(Quote(body) + rest) == Got(Str(x), rest) {
      QuotedReadsRest(body, x, rest);
    }
  }

  predicate IsPlain(x: string) {
    forall i :: 0 <= i < |x| ==> !IsControl(x[i]) && x[i] != '"' && x[i] != '\\'
  }

  lemma {:induction false} PlainReadsRest(x: string, rest: string)
    requires IsPlain(x)
    ensures ReadChars(x + ("\"" + rest)) == Got(x, rest)
  {
    var s := x + ("\"" + rest);
    if x == "" {
      assert s == "\"" + rest;
      assert s[1..] == rest;
    } else {
      assert s[1..] == x[1..] + ("\"" + rest);
      PlainReadsRest(x[1..], rest);
      assert [x[0]] + x[1..] == x;
    }
  }

  lemma PlainReads(x: string)
    requires IsPlain(x)
    ensures ReadsChars(x, x)
  {
    forall rest: string ensures ReadChars(x + ("\"" + rest)) == Got(x, rest) {
      PlainReadsRest(x, rest);
    }
  }

  /** A member as printed: its key, the text of its value, and the value meant. */
  datatype Member = Member(key: string, text: string, value: Value)

  /** The compact text of the members of an object. */
  function MembersText(ms: seq<Member>): string {
    if ms == [] then ""
    else Quote(ms[0].key) + ":" + ms[0].text + (if |ms| == 1 then "" else "," + MembersText(ms[1..]))
  }

  function ObjectText(ms: seq<Member>): string {
    "{" + MembersText(ms) + "}"
  }

  function Meanings(ms: seq<Member>): (r: seq<(string, Value)>)
    ensures |r| == |ms|
  {
    if ms == [] then [] else [(ms[0].key, ms[0].value)] + Meanings(ms[1..])
  }

  lemma {:induction false} MeaningsAt(ms: seq<Member>, i: nat)
    requires i < |ms|
    ensures Meanings(ms)[i] == (ms[i].key, ms[i].value)
  {
    if i > 0 {
      MeaningsAt(ms[1..], i - 1);
    }
  }

  ghost predicate WellPrinted(m: Member) {
    IsPlain(m.key) && ReadsValue(m.text, m.value)
  }

  /** The reader's state just behind the colon of the first member. */
  lemma ReadKey(key: string, after: string)
    requires IsPlain(key)
    ensures var s := Quote(key) + ":" + after;
            s[0] == '"' && SkipWs(s) == s && ReadChars(s[1..]) == Got(key, ":" + after)
            && SkipWs(":" + after) == ":" + after && (":" + after)[1..] == after
  {
    PlainReadsRest(key, ":" + after);
    var s := Quote(key) + ":" + after;
    assert s[1..] == key + ("\"" + (":" + after));
  }

  lemma MemberFails(key: string, after: string)
    requires IsPlain(key) && ReadValue(after) == Fail
    ensures ReadMembers(Quote(key) + ":" + after) == Fail
  {
    ReadKey(key, after);
  }

  lemma LastMember(key: string, after: string, v: Value, rest: string)
    requires IsPlain(key) && ReadValue(after) == Got(v, "}" + rest)
    ensures ReadMembers(Quote(key) + ":" + after) == Got([(key, v)], rest)
  {
    ReadKey(key, after);
    assert SkipWs("}" + rest) == "}" + rest && ("}" + rest)[1..] == rest;
  }

  lemma NextMember(key: string, after: string, v: Value, more: string)
    requires IsPlain(key) && ReadValue(after) == Got(v, "," + more)
    ensures ReadMembers(Quote(key) + ":" + after) == match ReadMembers(more)
                                                     case Fail => Fail
                                                     case Got(ms, rest) => Got([(key, v)] + ms, rest)
  {
    ReadKey(key, after);
    assert SkipWs("," + more) == "," + more && ("," + more)[1..] == more;
  }

  /** What follows the text of the first member's value. */
  function AfterFirst(ms: seq<Member>, rest: string): string
    requires ms != []
  {
    if |ms| == 1 then "}" + rest else "," + (MembersText(ms[1..]) + ("}" + rest))
  }

  lemma MembersTextSplit(ms: seq<Member>, rest: string)
    requires ms != []
    ensures MembersText(ms) + ("}" + rest) == Quote(ms[0].key) + ":" + (ms[0].text + AfterFirst(ms, rest))
  {
  }

  lemma {:induction false} MembersRead(ms: seq<Member>, rest: string)
    requires ms != [] && forall i :: 0 <= i < |ms| ==> WellPrinted(ms[i])
    ensures ReadMembers(MembersText(ms) + ("}" + rest)) == Got(Meanings(ms), rest)
    decreases |ms|
  {
    var m, after := ms[0], AfterFirst(ms, rest);
    MembersTextSplit(ms, rest);
    FirstReads(m.text, m.value, after);
    if |ms| == 1 {
      LastMember(m.key, m.text + after, m.value, rest);
      assert Meanings(ms) == [(m.key, m.value)];
    } else {
      MembersRead(ms[1..], rest);
      NextMember(m.key, m.text + after, m.value, MembersText(ms[1..]) + ("}" + rest));
    }
  }

  lemma Braced(m: string, rest: string)
    requires m != "" && m[0] == '"'
    ensures var s := "{" + m + "}" + rest; |s| > 1 && s[0] == '{' && s[1] == '"' && s[1..] == m + ("}" + rest)
  {
  }

  lemma ObjectTextSplit(ms: seq<Member>, rest: string)
    requires ms != []
    ensures var s := ObjectText(ms) + rest;
            |s| > 1 && s[0] == '{' && s[1] == '"' && s[1..] == MembersText(ms) + ("}" + rest)
  {
    MembersTextSplit(ms, "");
    assert (MembersText(ms) + ("}" + ""))[0] == '"';
    assert MembersText(ms)[0] == '"';
    Braced(MembersText(ms), rest);
  }

  /** A non-empty object of well-printed members reads back as exactly those members. */
  lemma ObjectReads(ms: seq<Member>)
    requires ms != [] && forall i :: 0 <= i < |ms| ==> WellPrinted(ms[i])
    ensures ReadsValue(ObjectText(ms), Obj(Meanings(ms)))
  {
    forall rest: string | Closes(rest) ensures ReadValue(ObjectText(ms) + rest) == Got(Obj(Meanings(ms)), rest) {
      ObjectTextSplit(ms, rest);
      MembersRead(ms, rest);
      ObjectStep(ObjectText(ms) + rest);
    }
  }

  lemma {:induction false} MembersFail(ms: seq<Member>, k: nat, rest: string)
    requires k < |ms| && IsPlain(ms[k].key) && Unreadable(ms[k].text)
    requires forall i :: 0 <= i < k ==> WellPrinted(ms[i])
    ensures ReadMembers(MembersText(ms) + ("}" + rest)) == Fail
    decreases |ms|
  {
    if k == 0 {
      MembersTextSplit(ms, rest);
      MemberFails(ms[0].key, ms[0].text + AfterFirst(ms, rest));
    } else {
      MembersFail(ms[1..], k - 1, rest);
      MembersFailStep(ms, rest);
    }
  }

  lemma MembersFailStep(ms: seq<Member>, rest: string)
    requires |ms| > 1 && WellPrinted(ms[0]) && ReadMembers(MembersText(ms[1..]) + ("}" + rest)) == Fail
    ensures ReadMembers(MembersText(ms) + ("}" + rest)) == Fail
  {
    var m, after := ms[0], AfterFirst(ms, rest);
    MembersTextSplit(ms, rest);
    FirstReads(m.text, m.value, after);
    NextMember(m.key, m.text + after, m.value, MembersText(ms[1..]) + ("}" + rest));
  }

  /** One unreadable member spoils the whole object. */
  lemma ObjectFails(ms: seq<Member>, k: nat)
    requires k < |ms| && IsPlain(ms[k].key) && Unreadable(ms[k].text)
    requires forall i :: 0 <= i < k ==> WellPrinted(ms[i])
    ensures Unreadable(ObjectText(ms))
  {
    forall rest: string ensures ReadValue(ObjectText(ms) + rest) == Fail {
      ObjectTextSplit(ms, rest);
      MembersFail(ms, k, rest);
      ObjectStep(ObjectText(ms) + rest);
    }
  }

  // ---- arrays -------------------------------------------------------------

  /** The texts with a comma between neighbours. */
  function CommaJoin(texts: seq<string>): string {
    if texts == [] then "" else texts[0] + (if |texts| == 1 then "" else "," + CommaJoin(texts[1..]))
  }

  function ArrayText(texts: seq<string>): string {
    "[" + CommaJoin(texts) + "]"
  }

  ghost predicate AllRead(texts: seq<string>, values: seq<Value>) {
    |texts| == |values| && forall i :: 0 <= i < |texts| ==> ReadsValue(texts[i], values[i])
  }

  lemma LastItem(s: string, v: Value, rest: string)
    requires ReadValue(s) == Got(v, "]" + rest)
    ensures ReadItems(s) == Got([v], rest)
  {
    assert SkipWs("]" + rest) == "]" + rest && ("]" + rest)[1..] == rest;
  }

  lemma NextItem(s: string, v: Value, more: string)
    requires ReadValue(s) == Got(v, "," + more)
    ensures ReadItems(s) == match ReadItems(more)
                            case Fail => Fail
                            case Got(vs, rest) => Got([v] + vs, rest)
  {
    assert SkipWs("," + more) == "," + more && ("," + more)[1..] == more;
  }

  /** What follows the text of the first item. */
  function AfterItem(texts: seq<string>, rest: string): string
    requires texts != []
  {
    if |texts| == 1 then "]" + rest else "," + (CommaJoin(texts[1..]) + ("]" + rest))
  }

  lemma CommaJoinSplit(texts: seq<string>, rest: string)
    requires texts != []
    ensures CommaJoin(texts) + ("]" + rest) == texts[0] + AfterItem(texts, rest)
  {
  }

  lemma TailReads(texts: seq<string>, values: seq<Value>)
    requires texts != [] && AllRead(texts, values)
    ensures AllRead(texts[1..], values[1..])
  {
    forall i | 0 <= i < |texts| - 1 ensures ReadsValue(texts[1..][i], values[1..][i]) {
      assert ReadsValue(texts[i + 1], values[i + 1]);
    }
  }

  lemma {:induction false} ItemsRead(texts: seq<string>, values: seq<Value>, rest: string)
    requires texts != [] && AllRead(texts, values)
    ensures ReadItems(CommaJoin(texts) + ("]" + rest)) == Got(values, rest)
    decreases |texts|
  {
    if |texts| == 1 {
      CommaJoinSplit(texts, rest);
      FirstReads(texts[0], values[0], AfterItem(texts, rest));
      LastItem(texts[0] + AfterItem(texts, rest), values[0], rest);
      assert values == [values[0]];
    } else {
      TailReads(texts, values);
      ItemsRead(texts[1..], values[1..], rest);
      ItemsStep(texts, values[0], rest);
      assert values == [values[0]] + values[1..];
    }
  }

  /** Reading goes on behind an item that has been read. */
  lemma ItemsStep(texts: seq<string>, v: Value, rest: string)
    requires |texts| > 1 && ReadsValue(texts[0], v)
    ensures ReadItems(CommaJoin(texts) + ("]" + rest)) == match ReadItems(CommaJoin(texts[1..]) + ("]" + rest))
                                                          case Fail => Fail
                                                          case Got(vs, more) => Got([v] + vs, more)
  {
    CommaJoinSplit(texts, rest);
    FirstReads(texts[0], v, AfterItem(texts, rest));
    NextItem(texts[0] + AfterItem(texts, rest), v, CommaJoin(texts[1..]) + ("]" + rest));
  }

  lemma ShiftReads(texts: seq<string>, values: seq<Value>, k: nat)
    requires 0 < k <= |texts| && k <= |values| && forall i :: 0 <= i < k ==> ReadsValue(texts[i], values[i])
    ensures forall i :: 0 <= i < k - 1 ==> ReadsValue(texts[1..][i], values[1..][i])
  {
    forall i | 0 <= i < k - 1 ensures ReadsValue(texts[1..][i], values[1..][i]) {
      assert ReadsValue(texts[i + 1], values[i + 1]);
    }
  }

  lemma ItemsFailHere(texts: seq<string>, rest: string)
    requires texts != [] && Unreadable(texts[0])
    ensures ReadItems(CommaJoin(texts) + ("]" + rest)) == Fail
  {
    CommaJoinSplit(texts, rest);
    ItemFails(texts[0] + AfterItem(texts, rest));
  }

  lemma {:induction false} ItemsFail(texts: seq<string>, values: seq<Value>, k: nat, rest: string)
    requires k < |texts| && k <= |values| && Unreadable(texts[k])
    requires forall i :: 0 <= i < k ==> ReadsValue(texts[i], values[i])
    ensures ReadItems(CommaJoin(texts) + ("]" + rest)) == Fail
    decreases |texts|
  {
    if k == 0 {
      ItemsFailHere(texts, rest);
    } else {
      ShiftReads(texts, values, k);
      ItemsFail(texts[1..], values[1..], k - 1, rest);
      ItemsStep(texts, values[0], rest);
    }
  }

  lemma ItemFails(s: string)
    requires ReadValue(s) == Fail
    ensures ReadItems(s) == Fail
  {
  }

  predicate OpensValue(c: char) {
    c == '{' || c == '"'
  }

  lemma ArrayStep(t: string)
    requires |t| > 1 && t[0] == '[' && OpensValue(t[1])
    ensures ReadValue(t) == match ReadItems(t[1..])
                            case Fail => Fail
                            case Got(vs, rest) => Got(Arr(vs), rest)
  {
    assert SkipWs(t[1..]) == t[1..];
  }

  lemma ArrayTextSplit(texts: seq<string>, rest: string)
    requires texts != [] && texts[0] != "" && OpensValue(texts[0][0])
    ensures var s := ArrayText(texts) + rest;
            |s| > 1 && s[0] == '[' && OpensValue(s[1]) && s[1..] == CommaJoin(texts) + ("]" + rest)
  {
  }

  /** A printed array of readable texts parses as exactly their values. */
  lemma ArrayReads(texts: seq<string>, values: seq<Value>)
    requires AllRead(texts, values)
    requires texts != [] ==> texts[0] != "" && OpensValue(texts[0][0])
    ensures Parse(ArrayText(texts)) == Text(Arr(values))
  {
    var s := ArrayText(texts);
    if texts == [] {
      assert s == "[]";
      assert s[1..] == "]" && SkipWs("]") == "]" && "]"[1..] == "";
      assert ReadValue("[]") == Got(Arr([]), "");
    } else {
      ArrayTextSplit(texts, "");
      ItemsRead(texts, values, "");
      assert s + "" == s;
      ArrayStep(s);
    }
  }

  /** One unreadable text spoils the whole array. */
  lemma ArrayFails(texts: seq<string>, values: seq<Value>, k: nat)
    requires k < |texts| && k <= |values| && Unreadable(texts[k])
    requires forall i :: 0 <= i < k ==> ReadsValue(texts[i], values[i])
    requires texts[0] != "" && OpensValue(texts[0][0])
    ensures Parse(ArrayText(texts)) == Malformed
  {
    var s := ArrayText(texts);
    ArrayTextSplit(texts, "");
    ItemsFail(texts, values, k, "");
    assert s + "" == s;
    ArrayStep(s);
  }

  // ---- decimal numbers ----------------------------------------------------

  function Digit(d: int): char
    requires 0 <= d < 10
  {
    (48 + d) as char
  }

  /** Decimal digits of a natural number, without leading zeros. */
  function Digits(n: nat): (s: string)
    ensures s != "" && forall i :: 0 <= i < |s| ==> IsDigit(s[i])
    ensures s[0] == '0' <==> n == 0
    ensures n == 0 ==> |s| == 1
  {
    if n < 10 then [Digit(n)] else Digits(n / 10) + [Digit(n % 10)]
  }

  /** The number a run of digits denotes. */
  function Denotes(s: string): nat
    requires forall i :: 0 <= i < |s| ==> IsDigit(s[i])
  {
    if s == "" then 0 else
      assert IsDigit(s[|s| - 1]);
      Denotes(s[..|s| - 1]) * 10 + (s[|s| - 1] as int - 48)
  }

  lemma {:induction false} DigitsDenote(n: nat)
    ensures Denotes(Digits(n)) == n
  {
    if n < 10 {
      assert Digits(n)[..0] == "";
    } else {
      DigitsDenote(n / 10);
      var s := Digits(n);
      assert s[..|s| - 1] == Digits(n / 10);
    }
  }

  lemma {:induction false} RunOfDigits(s: string, rest: string)
    requires forall i :: 0 <= i < |s| ==> IsDigit(s[i])
    requires Closes(rest)
    ensures DigitRun(s) == |s| && NumberRun(s + rest) == |s|
  {
    if s == "" {
      assert s + rest == rest;
    } else {
      assert (s + rest)[1..] == s[1..] + rest;
      RunOfDigits(s[1..], rest);
    }
  }

  function IntText(n: int): string {
    if n < 0 then "-" + Digits(-n) else Digits(n)
  }

  /** A number without fraction or exponent. */
  predicate IsIntText(lexeme: string) {
    lexeme != "" && (lexeme[0] == '-' || IsDigit(lexeme[0])) && forall i :: 0 < i < |lexeme| ==> IsDigit(lexeme[i])
  }

  /** The integer it denotes. */
  function IntOf(lexeme: string): int
    requires IsIntText(lexeme)
  {
    if lexeme[0] == '-' then 0 - Denotes(lexeme[1..]) as int else Denotes(lexeme)
  }

  lemma IntTextDenotes(n: int)
    ensures IsIntText(IntText(n)) && IntOf(IntText(n)) == n
  {
    DigitsDenote(if n < 0 then -n else n);
    if n < 0 {
      assert IntText(n)[1..] == Digits(-n);
    }
  }

  lemma IntReads(n: int)
    ensures ReadsValue(IntText(n), Number(IntText(n)))
  {
    forall rest: string | Closes(rest) ensures ReadValue(IntText(n) + rest) == Got(Number(IntText(n)), rest) {
      IntIsNumber(n);
      IntRun(n, rest);
      NumberStep(IntText(n), rest);
    }
  }

  lemma IntIsNumber(n: int)
    ensures var s := IntText(n); s != "" && (IsDigit(s[0]) || s[0] == '-') && IsNumber(s)
  {
    var d := Digits(if n < 0 then -n else n);
    RunOfDigits(d, "");
    assert d[|d|..] == "";
    if n < 0 {
      assert IntText(n)[1..] == d;
    }
  }

  lemma IntRun(n: int, rest: string)
    requires Closes(rest)
    ensures NumberRun(IntText(n) + rest) == |IntText(n)|
  {
    var d := Digits(if n < 0 then -n else n);
    RunOfDigits(d, rest);
    if n < 0 {
      MinusRun(d, rest);
    }
  }

  lemma MinusRun(d: string, rest: string)
    ensures NumberRun("-" + d + rest) == 1 + NumberRun(d + rest)
  {
    assert ("-" + d + rest)[0] == '-' && ("-" + d + rest)[1..] == d + rest;
  }

  lemma NumberStep(s: string, rest: string)
    requires s != "" && (IsDigit(s[0]) || s[0] == '-') && IsNumber(s) && NumberRun(s + rest) == |s|
    ensures ReadValue(s + rest) == Got(Number(s), rest)
  {
    var t := s + rest;
    assert t[..|s|] == s && t[|s|..] == rest;
  }

  lemma BoolReads(b: bool)
    ensures ReadsValue(if b then "true" else "false", Bool(b))
  {
    var text := if b then "true" else "false";
    forall rest: string | Closes(rest) ensures ReadValue(text + rest) == Got(Bool(b), rest) {
      assert (text + rest)[|text|..] == rest;
    }
  }

  lemma ParseWhole(text: string, v: Value)
    requires ReadsValue(text, v)
    ensures Parse(text) == Text(v)
  {
    assert text + "" == text;
    assert ReadValue(text + "") == Got(v, "");
  }

  lemma ParseUnreadable(text: string)
    requires Unreadable(text)
    ensures Parse(text) == Malformed
  {
    assert text + "" == text;
    assert ReadValue(text + "") == Fail;
  }
}
