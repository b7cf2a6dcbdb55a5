/** What the signature check decides about a file name. */
module SignedNames {
  import opened Wrappers
  import opened Strings
  import opened Base64Url
  import opened CustomServer
  import LicenceNames

  // ---- without the signature check ----------------------------------------

  /** A piece between double dashes, or a part of one between parentheses. */
  ghost predicate IsPart(pieces: seq<string>, part: string) {
    exists i :: 0 <= i < |pieces| && PartOf(pieces[i], part)
  }

  ghost predicate PartOf(piece: string, part: string) {
    part == piece || part in Split(piece, "(")
  }

  /** The part is the token of an unsigned record. */
  predicate PlainRecord(part: string, lic: CustomServer) {
    var d := Decode(Reverse(Trim(part)));
    d.Bytes? && FromSlice(d.bytes) == Some(lic)
  }

  ghost predicate Rejects(verify: Verifier) {
    forall d: seq<Byte> :: verify(d) == None
  }

  lemma PlainOnly(part: string, verify: Verifier, lic: CustomServer)
    requires Rejects(verify)
    ensures FromConfigString(Trim(part), verify) == Some(lic) <==> PlainRecord(part, lic)
  {
    var d := Decode(Reverse(Trim(part)));
    if d.Bytes? && FromSlice(d.bytes).None? {
      assert verify(d.bytes) == None;
    }
  }

  lemma {:induction false} PartsPlain(parts: seq<string>, verify: Verifier)
    requires Rejects(verify)
    ensures FirstRecord(parts, verify).Some? <==> exists part, lic :: part in parts && PlainRecord(part, lic)
    ensures forall lic :: FirstRecord(parts, verify) == Some(lic) ==> exists part :: part in parts && PlainRecord(part, lic)
  {
    if parts != [] {
      var r, rest := FromConfigString(Trim(parts[0]), verify), parts[1..];
      forall lic ensures r == Some(lic) <==> PlainRecord(parts[0], lic) {
        PlainOnly(parts[0], verify, lic);
      }
      forall part ensures part in parts <==> part == parts[0] || part in rest {
        HeadOrTail(parts, part);
      }
      if r.Some? {
        assert parts[0] in parts && PlainRecord(parts[0], r.value);
      } else {
        PartsPlain(rest, verify);
        assert FirstRecord(parts, verify) == FirstRecord(rest, verify);
      }
    }
  }

  lemma HeadOrTail(parts: seq<string>, part: string)
    requires parts != []
    ensures part in parts <==> part == parts[0] || part in parts[1..]
  {
    assert parts == [parts[0]] + parts[1..];
  }

  lemma SplitWithout(s: string)
    requires !Contains(s, "(")
    ensures Split(s, "(") == [s]
  {
    SplitAbsent(s, "(");
  }

  lemma PiecePlain(piece: string, verify: Verifier)
    requires Rejects(verify)
    ensures FromPiece(piece, verify).Some? <==> exists part, lic :: PartOf(piece, part) && PlainRecord(part, lic)
    ensures forall lic :: FromPiece(piece, verify) == Some(lic) ==> exists part :: PartOf(piece, part) && PlainRecord(part, lic)
  {
    var r := FromConfigString(Trim(piece), verify);
    forall lic ensures r == Some(lic) <==> PlainRecord(piece, lic) {
      PlainOnly(piece, verify, lic);
    }
    if r.Some? {
      assert PartOf(piece, piece) && PlainRecord(piece, r.value);
    } else if Contains(piece, "(") {
      PartsPlain(Split(piece, "("), verify);
    } else {
      SplitWithout(piece);
    }
  }

  lemma {:induction false} PiecesPlain(pieces: seq<string>, verify: Verifier)
    requires Rejects(verify)
    ensures FirstPiece(pieces, verify).Some? <==> exists part, lic :: IsPart(pieces, part) && PlainRecord(part, lic)
    ensures forall lic :: FirstPiece(pieces, verify) == Some(lic) ==> exists part :: IsPart(pieces, part) && PlainRecord(part, lic)
  {
    if pieces != [] {
      PiecePlain(pieces[0], verify);
      PiecesPlain(pieces[1..], verify);
      forall part ensures IsPart(pieces, part) <==> PartOf(pieces[0], part) || IsPart(pieces[1..], part) {
        PartSplits(pieces, part);
      }
    }
  }

  lemma PartSplits(pieces: seq<string>, part: string)
    requires pieces != []
    ensures IsPart(pieces, part) <==> PartOf(pieces[0], part) || IsPart(pieces[1..], part)
  {
    if IsPart(pieces, part) {
      var i :| 0 <= i < |pieces| && PartOf(pieces[i], part);
      assert i > 0 ==> pieces[1..][i - 1] == pieces[i];
    }
    if IsPart(pieces[1..], part) {
      var i :| 0 <= i < |pieces| - 1 && PartOf(pieces[1..][i], part);
      assert pieces[i + 1] == pieces[1..][i];
    }
  }

  /** When the signature check rejects everything, a name without a `host=` label stands for
      a record exactly if one of its parts is the token of an unsigned record, and then for
      such a record. */
  lemma UnsignedNamesOnly(name: string, verify: Verifier)
    requires Rejects(verify) && !Contains(Lower(StripExe(name)), "host=")
    ensures var pieces := Split(Normalize(StripExe(name)), "--");
            && (FromName(name, verify).Some? <==> exists part, lic :: IsPart(pieces, part) && PlainRecord(part, lic))
            && (forall lic :: FromName(name, verify) == Some(lic) ==>
                  exists part :: IsPart(pieces, part) && PlainRecord(part, lic))
  {
    PiecesPlain(Split(Normalize(StripExe(name)), "--"), verify);
    LicenceNames.NameWithoutLabel(name, StripExe(name), verify);
  }

  // ---- a signed name ------------------------------------------------------

  /** A token that the splitting leaves in one piece. */
  ghost predicate Unbroken(t: string) {
    t != "" && (forall i :: 0 <= i < |t| ==> IsSymbol(t[i])) && !Contains(t, "--") && !Contains("-" + t, "-licensed-")
  }

  lemma NoMarker(t: string, p: string)
    requires Unbroken(t) && "-licensed-" <= p
    ensures !Contains("rustdesk--" + t, p)
  {
    var s := "rustdesk--" + t;
    if Contains(s, p) {
      ContainsInner(s, p, "-licensed-");
      assert s == "rustdesk-" + ("-" + t);
      forall i | 0 <= i < |"rustdesk-"| ensures !("-licensed-" <= ("rustdesk-" + ("-" + t))[i..]) {
        Mismatch("rustdesk-" + ("-" + t), "-licensed-", i, if i < 8 then 0 else 1);
      }
      ContainsClear("rustdesk-", "-" + t, "-licensed-");
    }
  }

  lemma NormalizeNothing(t: string)
    requires Unbroken(t)
    ensures Normalize("rustdesk--" + t) == "rustdesk--" + t
  {
    var s := "rustdesk--" + t;
    NoMarker(t, LICENSED3);
    NoMarker(t, LICENSED2);
    NoMarker(t, LICENSED1);
    ReplaceAbsent(s, LICENSED3, "--");
    ReplaceAbsent(s, LICENSED2, "--");
    ReplaceAbsent(s, LICENSED1, "--");
  }

  lemma NameSplits(t: string)
    requires Unbroken(t)
    ensures Split("rustdesk--" + t, "--") == ["rustdesk", t]
  {
    assert "rustdesk" + "--" + t == "rustdesk--" + t;
    LicenceNames.PrefixClear("rustdesk", "--" + t, "--");
    SplitStep("rustdesk", t, "--");
    SplitAbsent(t, "--");
  }

  lemma SymbolsOnly(t: string)
    requires Unbroken(t)
    ensures Trim(t) == t && forall i :: 0 <= i < |"rustdesk--" + t| ==> ("rustdesk--" + t)[i] != '.' && ("rustdesk--" + t)[i] != '='
  {
    forall i | 0 <= i < |"rustdesk--" + t| ensures ("rustdesk--" + t)[i] != '.' && ("rustdesk--" + t)[i] != '=' {
      assert i >= 10 ==> ("rustdesk--" + t)[i] == t[i - 10];
    }
    assert IsSymbol(t[0]) && IsSymbol(t[|t| - 1]);
  }

  /** Around any unbroken token the name stands for what the token stands for, a record or
      nothing. */
  lemma NameIsToken(t: string, ext: string, verify: Verifier)
    requires Unbroken(t) && (Lower(ext) == ".exe" || ext == "")
    ensures FromName("rustdesk--" + t + ext, verify) == FromConfigString(t, verify)
  {
    var base := "rustdesk--" + t;
    SymbolsOnly(t);
    LicenceNames.ExtensionStripped(base, "", ext);
    assert base + "" == base;
    NoLabel(base);
    LicenceNames.NameWithoutLabel(base + ext, base, verify);
    NormalizeNothing(t);
    NameSplits(t);
    LicenceNames.BareNameFails(verify);
    SecondPiece(t, verify);
  }

  lemma SecondPiece(t: string, verify: Verifier)
    requires FromPiece("rustdesk", verify) == None && Unbroken(t) && Trim(t) == t
    ensures FirstPiece(["rustdesk", t], verify) == FromConfigString(t, verify)
  {
    forall i | 0 <= i < |t| ensures t[i] != '(' {
      assert IsSymbol(t[i]);
    }
    LicenceNames.NoParenthesis(t);
    assert ["rustdesk", t][1..] == [t] && [t][1..] == [];
    assert FirstPiece([t], verify) == FromPiece(t, verify);
  }

  lemma NoLabel(base: string)
    requires forall i :: 0 <= i < |base| ==> base[i] != '='
    ensures !Contains(Lower(base), "host=")
  {
    LicenceNames.NoLabelStarts(base, "");
    assert base + "" == base;
    assert Lower("") == "";
    ContainsClear(Lower(base), "", "host=");
  }

  /** So every record, whatever its characters, is found in a name if its token is unbroken. */
  lemma AnyRecordParsesBack(lic: CustomServer, ext: string, verify: Verifier)
    requires Unbroken(GenName(lic)) && (Lower(ext) == ".exe" || ext == "")
    ensures FromName("rustdesk--" + GenName(lic) + ext, verify) == Some(lic)
  {
    TokenDecodes(lic, verify);
    NameIsToken(GenName(lic), ext, verify);
  }

  /** The signed half of the codec, for bytes that are no record themselves and whose token
      is unbroken: the name stands for exactly the record that the check opens them to, and
      for none if the check rejects them. */
  lemma SignedNameParsesBack(data: seq<Byte>, ext: string, verify: Verifier)
    requires FromSlice(data) == None && |data| >= 64
    requires Unbroken(Reverse(Encode(data))) && (Lower(ext) == ".exe" || ext == "")
    ensures var name := "rustdesk--" + Reverse(Encode(data)) + ext;
            && (verify(data) == None ==> FromName(name, verify) == None)
            && (forall lic :: verify(data) == Some(ToUtf8(ToJson(lic))) ==> FromName(name, verify) == Some(lic))
  {
    NameIsToken(Reverse(Encode(data)), ext, verify);
    SignedToken(data, verify);
    forall lic | verify(data) == Some(ToUtf8(ToJson(lic))) ensures FromSlice(verify(data).value) == Some(lic) {
      RecordReadsBack(lic);
    }
  }
}
