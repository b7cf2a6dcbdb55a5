/** The second file-name format, `host=...,key=...,api=...,relay=...`: labels in any
    letter case and any order, the last of several equal labels winning. Names are ASCII. */
module HostNames {
  import opened Wrappers
  import opened Strings
  import opened CustomServer
  import LicenceNames

  datatype Label = Host | Key | Api | Relay {
    function Text(): string {
      match this
      case Host => "host="
      case Key => "key="
      case Api => "api="
      case Relay => "relay="
    }
  }

  /** A label as spelled in the name, and its value. */
  datatype Entry = Entry(field: Label, spelled: string, value: string) {
    predicate Valid() {
      Lower(spelled) == field.Text() && forall i :: 0 <= i < |value| ==> value[i] != ','
    }

    function Piece(): string {
      spelled + value
    }
  }

  predicate AllValid(entries: seq<Entry>) {
    forall i :: 0 <= i < |entries| ==> entries[i].Valid()
  }

  function Pieces(entries: seq<Entry>): (r: seq<string>)
    ensures |r| == |entries|
  {
    seq(|entries|, i requires 0 <= i < |entries| => entries[i].Piece())
  }

  /** The value of the last entry with this label, or nothing. */
  function LastValue(entries: seq<Entry>, field: Label): string {
    if entries == [] then ""
    else if entries[|entries| - 1].field == field then entries[|entries| - 1].value
    else LastValue(entries[..|entries| - 1], field)
  }

  function LastValues(entries: seq<Entry>): CustomServer {
    CustomServer(LastValue(entries, Key), LastValue(entries, Host), LastValue(entries, Api), LastValue(entries, Relay))
  }

  /** A piece that starts no recognised label. */
  predicate Unlabelled(el: string) {
    forall field: Label :: !(field.Text() <= Lower(el))
  }

  // ---- reading pieces -----------------------------------------------------

  lemma EntryRead(r: CustomServer, e: Entry)
    requires e.Valid()
    ensures ReadPiece(r, e.Piece()) == match e.field
                                       case Host => r.(host := e.value)
                                       case Key => r.(key := e.value)
                                       case Api => r.(api := e.value)
                                       case Relay => r.(relay := e.value)
  {
    var el, low := e.Piece(), Lower(e.Piece());
    LowerConcat(e.spelled, e.value);
    assert e.field.Text() <= low;
    assert |e.spelled| == |e.field.Text()|;
    assert el[|e.spelled|..] == e.value;
    assert low[0] == e.field.Text()[0];
  }

  lemma {:induction false} EntriesRead(entries: seq<Entry>)
    requires AllValid(entries)
    ensures ReadPieces(Pieces(entries)) == LastValues(entries)
  {
    if entries != [] {
      var n := |entries| - 1;
      EntriesRead(entries[..n]);
      assert Pieces(entries)[..n] == Pieces(entries[..n]);
      EntryRead(ReadPieces(Pieces(entries[..n])), entries[n]);
    }
  }

  lemma {:induction false} UnlabelledIgnored(pieces: seq<string>, more: seq<string>)
    requires forall i :: 0 <= i < |more| ==> Unlabelled(more[i])
    ensures ReadPieces(pieces + more) == ReadPieces(pieces)
  {
    if more == [] {
      assert pieces + more == pieces;
    } else {
      var n := |more| - 1;
      assert (pieces + more)[..|pieces| + n] == pieces + more[..n];
      UnlabelledIgnored(pieces, more[..n]);
      var el := more[n];
      assert !(Host.Text() <= Lower(el)) && !(Key.Text() <= Lower(el));
      assert !(Api.Text() <= Lower(el)) && !(Relay.Text() <= Lower(el));
    }
  }

  // ---- splitting at commas ------------------------------------------------

  predicate NoComma(s: string) {
    forall i :: 0 <= i < |s| ==> s[i] != ','
  }

  lemma CommaClear(a: string, b: string)
    requires NoComma(a)
    ensures Clear(a, b, ",")
  {
    forall i | 0 <= i < |a| ensures !("," <= (a + b)[i..]) {
      Mismatch(a + b, ",", i, 0);
    }
  }

  lemma PieceNoComma(e: Entry)
    requires e.Valid()
    ensures NoComma(e.Piece()) && e.Piece() != ""
  {
    forall i | 0 <= i < |e.Piece()| ensures e.Piece()[i] != ',' {
      assert i < |e.spelled| ==> LowerChar(e.spelled[i]) == e.field.Text()[i] && e.field.Text()[i] != ',';
    }
  }

  /** The text of a list of entries, each followed by a comma. */
  function ListText(entries: seq<Entry>): string {
    if entries == [] then "" else entries[0].Piece() + "," + ListText(entries[1..])
  }

  lemma {:induction false} ListSplits(entries: seq<Entry>, rest: string)
    requires AllValid(entries)
    ensures Split(ListText(entries) + rest, ",") == Pieces(entries) + Split(rest, ",")
  {
    if entries == [] {
      assert ListText(entries) + rest == rest;
      assert Pieces(entries) + Split(rest, ",") == Split(rest, ",");
    } else {
      ListStep(entries, rest);
      ListSplits(entries[1..], rest);
      PiecesStep(entries, Split(rest, ","));
    }
  }

  lemma PiecesStep(entries: seq<Entry>, more: seq<string>)
    requires entries != []
    ensures [entries[0].Piece()] + (Pieces(entries[1..]) + more) == Pieces(entries) + more
  {
  }

  lemma ListStep(entries: seq<Entry>, rest: string)
    requires entries != [] && entries[0].Valid()
    ensures Split(ListText(entries) + rest, ",") == [entries[0].Piece()] + Split(ListText(entries[1..]) + rest, ",")
  {
    var p, more := entries[0].Piece(), ListText(entries[1..]) + rest;
    assert ListText(entries) + rest == p + "," + more;
    PieceNoComma(entries[0]);
    CommaClear(p, "," + more);
    SplitStep(p, more, ",");
  }

  /** The same pieces, except that the last of `s` has the ending `e` more. */
  predicate LongerBy(s: seq<string>, t: seq<string>, e: string) {
    |s| == |t| > 0 && s[..|s| - 1] == t[..|t| - 1] && s[|s| - 1] == t[|t| - 1] + e
  }

  lemma GlueLonger(a: string, s: seq<string>, t: seq<string>, e: string)
    requires LongerBy(s, t, e)
    ensures LongerBy(Glue(a, s), Glue(a, t), e)
  {
    var g, h := Glue(a, s), Glue(a, t);
    if |s| == 1 {
      assert a + (t[0] + e) == (a + t[0]) + e;
    } else {
      assert s[0] == s[..|s| - 1][0] == t[..|t| - 1][0] == t[0];
      assert g[..|g| - 1] == [a + s[0]] + s[..|s| - 1][1..];
      assert h[..|h| - 1] == [a + t[0]] + t[..|t| - 1][1..];
    }
  }

  lemma ConsLonger(x: string, s: seq<string>, t: seq<string>, e: string)
    requires LongerBy(s, t, e)
    ensures LongerBy([x] + s, [x] + t, e)
  {
    assert ([x] + s)[..|s|] == [x] + s[..|s| - 1];
    assert ([x] + t)[..|t|] == [x] + t[..|t| - 1];
  }

  /** Dropping a comma-free ending shortens the last piece only. */
  lemma {:induction false} SplitBeforeEnding(a: string, e: string)
    requires NoComma(e)
    ensures LongerBy(Split(a + e, ","), Split(a, ","), e)
    decreases |a|
  {
    if a == "" {
      CommaClear(e, "");
      SplitClear(e, "", ",");
      assert a + e == e && e + "" == e;
    } else {
      assert (a + e)[1..] == a[1..] + e && (a + e)[..1] == a[..1];
      SplitBeforeEnding(a[1..], e);
      if a[0] == ',' {
        ConsLonger("", Split(a[1..] + e, ","), Split(a[1..], ","), e);
      } else {
        GlueLonger(a[..1], Split(a[1..] + e, ","), Split(a[1..], ","), e);
      }
    }
  }

  predicate AllUnlabelled(text: string) {
    forall i :: 0 <= i < |Split(text, ",")| ==> Unlabelled(Split(text, ",")[i])
  }

  lemma CutStaysUnlabelled(text: string)
    requires AllUnlabelled(text)
    ensures AllUnlabelled(LicenceNames.CutTail(text))
  {
    if EndsWith(Lower(text), ".exe") {
      var n := |text| - 4;
      var a, e := text[..n], text[n..];
      assert text == a + e;
      forall i | 0 <= i < |e| ensures e[i] != ',' {
        assert Lower(text)[n..][i] == LowerChar(e[i]);
      }
      SplitBeforeEnding(a, e);
      var s, t := Split(text, ","), Split(a, ",");
      forall i | 0 <= i < |t| ensures Unlabelled(t[i]) {
        assert Unlabelled(s[i]);
        if i < |t| - 1 {
          assert s[..|s| - 1][i] == t[..|t| - 1][i];
        } else {
          LowerConcat(t[i], e);
        }
      }
    }
  }

  // ---- the whole name -----------------------------------------------------

  /** The first `host=` of a prefix without one is the label that follows it. */
  lemma HostFoundBehind(prefix: string, body: string)
    requires !Contains(Lower(prefix), "host=") && "host=" <= Lower(body)
    ensures Contains(Lower(prefix + body), "host=") && HostPart(prefix + body) == body
  {
    var a, b := Lower(prefix), Lower(body);
    LowerConcat(prefix, body);
    assert b[0] == 'h';
    forall i | 0 <= i < |a| ensures !("host=" <= (a + b)[i..]) {
      if i + 5 <= |a| {
        assert (a + b)[i..][..5] == a[i..][..5];
        if "host=" <= a[i..] {
          ContainsAt(a, "host=", i);
        }
      } else {
        Mismatch(a + b, "host=", i, |a| - i);
      }
    }
    FindClear(a, b, "host=");
    assert (prefix + body)[|prefix|..] == body;
  }

  lemma ExeAfterComma(a: string, b: string)
    requires a != "" && a[|a| - 1] == ','
    ensures EndsWith(a + b, ".exe") <==> EndsWith(b, ".exe")
  {
    var s, n := a + b, |a| + |b|;
    if |b| >= 4 {
      assert s[n - 4..] == b[|b| - 4..];
    } else if n >= 4 {
      assert s[n - 4..][3 - |b|] == ',';
    }
  }

  lemma StrippedBehindComma(a: string, x: string, ext: string)
    requires a != "" && a[|a| - 1] == ',' && LicenceNames.IsExtension(x, ext)
    ensures StripExe(a + x + ext) == a + LicenceNames.CutTail(x)
  {
    LowerConcat(a, x);
    ExeAfterComma(Lower(a), Lower(x));
    LicenceNames.ExtensionCut(a, x, ext);
  }

  lemma {:induction false} ListTextEnds(entries: seq<Entry>)
    requires entries != [] && AllValid(entries)
    ensures ListText(entries) != "" && ListText(entries)[|ListText(entries)| - 1] == ','
    ensures entries[0].field.Text() <= Lower(ListText(entries))
  {
    var e := entries[0];
    assert e.Valid();
    if |entries| > 1 {
      ListTextEnds(entries[1..]);
    }
    var rest := e.value + "," + ListText(entries[1..]);
    assert ListText(entries) == e.spelled + rest;
    LowerConcat(e.spelled, rest);
  }

  /** For every list of entries that begins with a host, in any order, any letter case and
      with any repetitions, a final comma and any text that starts no label: each field is
      the value of the last entry with its label. */
  lemma LastLabelWins(prefix: string, entries: seq<Entry>, junk: string, ext: string, verify: Verifier)
    requires IsAscii(prefix) && IsAscii(ListText(entries)) && IsAscii(junk)
    requires !Contains(Lower(prefix), "host=") && LicenceNames.IsExtension(junk, ext)
    requires entries != [] && entries[0].field == Host && AllValid(entries)
    requires AllUnlabelled(junk)
    ensures FromName(prefix + ListText(entries) + junk + ext, verify) == Some(LastValues(entries))
  {
    var list, rest := ListText(entries), LicenceNames.CutTail(junk);
    ListTextEnds(entries);
    StrippedBehindComma(prefix + list, junk, ext);
    Associate(prefix, list, rest);
    StartsLonger(Host.Text(), list, rest);
    StrippedReads(prefix, list + rest, prefix + list + junk + ext, verify);
    ListReads(entries, junk);
  }

  lemma StartsLonger(p: string, a: string, b: string)
    requires p <= Lower(a)
    ensures p <= Lower(a + b)
  {
    LowerConcat(a, b);
  }

  /** What the parser makes of the text once the extension is gone. */
  lemma StrippedReads(prefix: string, body: string, name: string, verify: Verifier)
    requires !Contains(Lower(prefix), "host=") && "host=" <= Lower(body) && StripExe(name) == prefix + body
    ensures FromName(name, verify) == Some(ReadPieces(Split(body, ",")))
  {
    HostFoundBehind(prefix, body);
    LicenceNames.NameWithLabel(name, prefix + body, verify);
  }

  lemma ListReads(entries: seq<Entry>, junk: string)
    requires AllValid(entries) && AllUnlabelled(junk)
    ensures ReadPieces(Split(ListText(entries) + LicenceNames.CutTail(junk), ",")) == LastValues(entries)
  {
    CutStaysUnlabelled(junk);
    var rest := LicenceNames.CutTail(junk);
    ListSplits(entries, rest);
    UnlabelledIgnored(Pieces(entries), Split(rest, ","));
    EntriesRead(entries);
  }

  function FieldOf(lic: CustomServer, field: Label): string {
    match field
    case Host => lic.host
    case Key => lic.key
    case Api => lic.api
    case Relay => lic.relay
  }

  predicate Occurs(entries: seq<Entry>, field: Label) {
    exists i :: 0 <= i < |entries| && entries[i].field == field
  }

  lemma {:induction false} LastOfConsistent(entries: seq<Entry>, lic: CustomServer, field: Label)
    requires forall i :: 0 <= i < |entries| ==> entries[i].value == FieldOf(lic, entries[i].field)
    requires Occurs(entries, field)
    ensures LastValue(entries, field) == FieldOf(lic, field)
  {
    var n := |entries| - 1;
    if entries[n].field != field {
      var i :| 0 <= i < |entries| && entries[i].field == field;
      assert entries[..n][i].field == field;
      LastOfConsistent(entries[..n], lic, field);
    }
  }

  lemma AllFields(lic: CustomServer, entries: seq<Entry>)
    requires forall i :: 0 <= i < |entries| ==> entries[i].value == FieldOf(lic, entries[i].field)
    requires Occurs(entries, Host) && Occurs(entries, Key) && Occurs(entries, Api) && Occurs(entries, Relay)
    ensures LastValues(entries) == lic
  {
    LastOfConsistent(entries, lic, Host);
    LastOfConsistent(entries, lic, Key);
    LastOfConsistent(entries, lic, Api);
    LastOfConsistent(entries, lic, Relay);
  }

  /** Host first, then key, api and relay in any of their orders: always the same record. */
  lemma AnyOrderSameRecord(lic: CustomServer, prefix: string, entries: seq<Entry>, junk: string, ext: string,
                           verify: Verifier)
    requires IsAscii(prefix) && IsAscii(ListText(entries)) && IsAscii(junk)
    requires !Contains(Lower(prefix), "host=") && LicenceNames.IsExtension(junk, ext) && AllUnlabelled(junk)
    requires entries != [] && entries[0].field == Host && AllValid(entries)
    requires |entries| == 4 && Occurs(entries, Key) && Occurs(entries, Api) && Occurs(entries, Relay)
    requires forall i :: 0 <= i < |entries| ==> entries[i].value == FieldOf(lic, entries[i].field)
    ensures FromName(prefix + ListText(entries) + junk + ext, verify) == Some(lic)
  {
    AllFields(lic, entries);
    assert LastValues(entries) == lic;
    LastLabelWins(prefix, entries, junk, ext, verify);
  }

  // ---- without the final comma --------------------------------------------

  /** The pieces with commas between them only. */
  function PlainText(entries: seq<Entry>): string
    requires entries != []
  {
    ListText(entries[..|entries| - 1]) + entries[|entries| - 1].Piece()
  }

  lemma PlainSplits(entries: seq<Entry>)
    requires entries != [] && AllValid(entries)
    ensures Split(PlainText(entries), ",") == Pieces(entries)
  {
    var n := |entries| - 1;
    var p := entries[n].Piece();
    PieceNoComma(entries[n]);
    CommaClear(p, "");
    SplitClear(p, "", ",");
    assert p + "" == p;
    ListSplits(entries[..n], p);
    PiecesEnd(entries);
  }

  lemma PiecesEnd(entries: seq<Entry>)
    requires entries != []
    ensures Pieces(entries[..|entries| - 1]) + [entries[|entries| - 1].Piece()] == Pieces(entries)
  {
  }

  lemma PlainTextStarts(entries: seq<Entry>)
    requires entries != [] && AllValid(entries)
    ensures entries[0].field.Text() <= Lower(PlainText(entries))
  {
    var n := |entries| - 1;
    if n == 0 {
      assert PlainText(entries) == entries[0].spelled + entries[0].value;
      LowerConcat(entries[0].spelled, entries[0].value);
    } else {
      ListTextEnds(entries[..n]);
      LowerConcat(ListText(entries[..n]), entries[n].Piece());
    }
  }

  lemma PlainReads(prefix: string, entries: seq<Entry>, name: string, verify: Verifier)
    requires entries != [] && entries[0].field == Host && AllValid(entries)
    requires !Contains(Lower(prefix), "host=") && StripExe(name) == prefix + PlainText(entries)
    ensures FromName(name, verify) == Some(LastValues(entries))
  {
    PlainTextStarts(entries);
    StrippedReads(prefix, PlainText(entries), name, verify);
    PlainSplits(entries);
    EntriesRead(entries);
  }

  function LastCut(entries: seq<Entry>): seq<Entry>
    requires entries != [] && |entries[|entries| - 1].value| >= 4
  {
    var n := |entries| - 1;
    var v := entries[n].value;
    entries[..n] + [entries[n].(value := v[..|v| - 4])]
  }

  /** A list that ends in `.exe` ends so in its last value. */
  lemma ExeInLastValue(entries: seq<Entry>)
    requires entries != [] && AllValid(entries)
    ensures var v := entries[|entries| - 1].value;
            EndsWith(Lower(PlainText(entries)), ".exe") <==> EndsWith(Lower(v), ".exe")
  {
    var n := |entries| - 1;
    var e := entries[n];
    var a := ListText(entries[..n]) + e.spelled;
    assert PlainText(entries) == a + e.value;
    LowerConcat(a, e.value);
    assert LowerChar(a[|a| - 1]) == e.field.Text()[|e.spelled| - 1] == '=';
    ExeBehindLabel(Lower(a), Lower(e.value));
  }

  lemma ExeBehindLabel(a: string, b: string)
    requires a != "" && a[|a| - 1] == '='
    ensures EndsWith(a + b, ".exe") <==> EndsWith(b, ".exe")
  {
    var s, n := a + b, |a| + |b|;
    if |b| >= 4 {
      assert s[n - 4..] == b[|b| - 4..];
    } else if n >= 4 {
      assert s[n - 4..][3 - |b|] == '=';
    }
  }

  lemma CutText(entries: seq<Entry>)
    requires entries != [] && AllValid(entries) && |entries[|entries| - 1].value| >= 4
    ensures AllValid(LastCut(entries)) && LastCut(entries)[0].field == entries[0].field
    ensures PlainText(LastCut(entries)) == PlainText(entries)[..|PlainText(entries)| - 4]
  {
    var n := |entries| - 1;
    assert LastCut(entries)[..n] == entries[..n];
    assert entries[n].Valid();
  }

  /** Without a final comma the name parses to the same record exactly when its last value
      does not itself end in `.exe`: with two extensions both are taken off. */
  lemma NoFinalCommaExactly(prefix: string, entries: seq<Entry>, ext: string, verify: Verifier)
    requires !Contains(Lower(prefix), "host=") && Lower(ext) == ".exe"
    requires entries != [] && entries[0].field == Host && AllValid(entries)
    requires IsAscii(prefix) && IsAscii(PlainText(entries))
    ensures FromName(prefix + PlainText(entries) + ext, verify) == Some(LastValues(entries)) <==>
            !EndsWith(Lower(entries[|entries| - 1].value), ".exe")
  {
    var text := PlainText(entries);
    var name := prefix + text + ext;
    ExeInLastValue(entries);
    PlainTextStarts(entries);
    ExtensionOff(prefix, text, ext);
    if EndsWith(Lower(entries[|entries| - 1].value), ".exe") {
      CutText(entries);
      PlainReads(prefix, LastCut(entries), name, verify);
    } else {
      PlainReads(prefix, entries, name, verify);
    }
  }

  lemma ExtensionOff(prefix: string, text: string, ext: string)
    requires Lower(ext) == ".exe" && "host=" <= Lower(text)
    ensures StripExe(prefix + text + ext) ==
            prefix + (if EndsWith(Lower(text), ".exe") then text[..|text| - 4] else text)
  {
    LowerConcat(prefix, text);
    EndSame(Lower(prefix), Lower(text));
    LicenceNames.ExtensionCut(prefix, text, ext);
  }

  lemma EndSame(a: string, b: string)
    requires |b| >= 4
    ensures EndsWith(a + b, ".exe") <==> EndsWith(b, ".exe")
  {
    assert (a + b)[|a| + |b| - 4..] == b[|b| - 4..];
  }
}
