/** Every file name built around a generated token parses back to the record. */
module LicenceNames {
  import opened Wrappers
  import opened Strings
  import opened Base64Url
  import opened CustomServer

  /** What the file-name parser relies on in a token: base64url symbols, a harmless first
      and last character, and dashes only at distances divisible by four. */
  ghost predicate Shaped(t: string) {
    && t != ""
    && (forall i :: 0 <= i < |t| ==> IsSymbol(t[i]))
    && (t[0] == '9' || t[0] == 'Q' || t[0] == '0')
    && t[|t| - 1] == 'e'
    && (forall i, j :: 0 <= i < j < |t| && t[i] == '-' && t[j] == '-' ==> (j - i) % 4 == 0)
  }

  lemma DashPosition(b: seq<Byte>, i: nat)
    requires IsPrintableAscii(b) && i < |Encode(b)| && Encode(b)[i] == '-'
    ensures i % 4 == 3
  {
    SymbolsInvert(Sextets(b)[i]);
    DashOnlyAtGroupEnds(b, i);
  }

  lemma GeneratedTokensAreShaped(lic: CustomServer)
    requires lic.Ascii()
    ensures Shaped(GenName(lic))
  {
    SerdeAscii(lic);
    EncodedObjectsAreShaped(ToBytes(ToJson(lic)));
  }

  /** Any printable ASCII text between braces has a well-shaped reversed encoding. */
  lemma EncodedObjectsAreShaped(b: seq<Byte>)
    requires IsPrintableAscii(b) && |b| >= 2 && b[0] == 123 && b[|b| - 1] == 125
    ensures Shaped(Reverse(Encode(b)))
  {
    var t := Reverse(Encode(b));
    LastOfBrace(b);
    assert Sextets(b)[0] == 30;
    forall i | 0 <= i < |t| ensures IsSymbol(t[i]) {
      SymbolsInvert(Sextets(b)[|t| - 1 - i]);
    }
    forall i, j | 0 <= i < j < |t| && t[i] == '-' && t[j] == '-' ensures (j - i) % 4 == 0 {
      DashDistance(b, i, j);
    }
  }

  lemma DashDistance(b: seq<Byte>, i: nat, j: nat)
    requires IsPrintableAscii(b) && i < j < |Encode(b)|
    requires Reverse(Encode(b))[i] == '-' && Reverse(Encode(b))[j] == '-'
    ensures (j - i) % 4 == 0
  {
    var p, q := |Encode(b)| - 1 - i, |Encode(b)| - 1 - j;
    assert Encode(b)[p] == '-' && Encode(b)[q] == '-';
    DashPosition(b, p);
    DashPosition(b, q);
    SameRemainder(p, q);
    assert j - i == p - q;
  }

  lemma SameRemainder(p: int, q: int)
    requires p % 4 == q % 4
    ensures (p - q) % 4 == 0
  {
  }

  // ---- what may follow a token --------------------------------------------

  /** White space, then nothing, or an opening parenthesis or two dashes and anything. */
  predicate IsTail(x: string) {
    x == "" || x[0] == '(' || "--" <= x || (IsWhite(x[0]) && IsTail(x[1..]))
  }

  /** A tail that holds no double dash in front. */
  predicate IsEnd(x: string) {
    x == "" || x[0] == '(' || (IsWhite(x[0]) && IsEnd(x[1..]))
  }

  lemma {:induction false} TailCut(x: string, k: nat)
    requires IsTail(x) && k < |x| && x[k] == '.'
    ensures IsTail(x[..k])
  {
    if x[0] != '(' && !("--" <= x) {
      TailCut(x[1..], k - 1);
      assert x[..k][1..] == x[1..][..k - 1];
    } else if x[0] != '(' {
      assert k >= 2;
    }
  }

  predicate IsLicensed(p: string) {
    p == LICENSED1 || p == LICENSED2 || p == LICENSED3
  }

  /** Normalising never turns a tail into something else. */
  lemma {:induction false} TailReplace(x: string, p: string)
    requires IsTail(x) && IsLicensed(p)
    ensures IsTail(Replace(x, p, "--"))
  {
    if x != "" {
      Mismatch(x, p, 0, if x[0] != '-' then 0 else 1);
      assert x[0..] == x;
      if x[0] != '(' && !("--" <= x) {
        TailReplace(x[1..], p);
        var r := Replace(x[1..], p, "--");
        assert ([x[0]] + r)[1..] == r;
      } else if x[0] != '(' {
        assert x[1..][0] == '-';
      }
    }
  }

  lemma {:induction false} TailSplit(x: string)
    requires IsTail(x)
    ensures IsEnd(Split(x, "--")[0])
  {
    if x != "" && !("--" <= x) {
      var rest := Split(x[1..], "--");
      assert Split(x, "--")[0] == x[..1] + rest[0];
      if x[0] != '(' {
        TailSplit(x[1..]);
        assert (x[..1] + rest[0])[1..] == rest[0];
      }
    }
  }

  /** An end is white space, possibly followed by an opening parenthesis. */
  lemma {:induction false} EndForm(x: string) returns (w: string, rest: string)
    requires IsEnd(x)
    ensures x == w + rest && (forall c :: c in w ==> IsWhite(c)) && (rest == "" || rest[0] == '(')
  {
    if x == "" || x[0] == '(' {
      w, rest := "", x;
    } else {
      w, rest := EndForm(x[1..]);
      assert x == x[..1] + x[1..];
      w := x[..1] + w;
    }
  }

  // ---- the scans pass over a token ----------------------------------------

  /** No `-licensed-` marker starts in a token, not even one that runs into the tail. */
  lemma TokenHasNoMarker(t: string, x: string, p: string)
    requires Shaped(t) && IsTail(x) && IsLicensed(p)
    ensures Clear(t, x, p)
  {
    forall i | 0 <= i < |t| ensures !(p <= (t + x)[i..]) {
      var d := |t| - 1 - i;
      Mismatch(t + x, p, i,
               if t[i] != '-' then 0
               else if i + 9 < |t| then 9
               else if p[d] != 'e' then d
               else d + 1);
    }
  }

  lemma TokenHasNoSeparator(t: string, x: string)
    requires Shaped(t) && IsTail(x)
    ensures Clear(t, x, "--")
  {
    forall i | 0 <= i < |t| ensures !("--" <= (t + x)[i..]) {
      Mismatch(t + x, "--", i, if t[i] != '-' then 0 else 1);
    }
  }

  predicate IsPrefix(u: string) {
    u == "rustdesk--" || u == "rustdesk" + LICENSED1 || u == "rustdesk" + LICENSED2 || u == "rustdesk" + LICENSED3
  }

  lemma Prefixes()
    ensures IsPrefix("rustdesk--") && IsPrefix("rustdesk-licensed-") && IsPrefix("rustdesk-licensed--")
    ensures IsPrefix("rustdesk-licensed---")
  {
    assert "rustdesk" + LICENSED1 == "rustdesk-licensed-";
    assert "rustdesk" + LICENSED2 == "rustdesk-licensed--";
    assert "rustdesk" + LICENSED3 == "rustdesk-licensed---";
  }

  /** One normalising pass over prefix, token and tail. */
  lemma Pass(u: string, t: string, x: string, p: string)
    requires IsPrefix(u) && Shaped(t) && IsTail(x) && IsLicensed(p)
    requires |u| <= 8 + |p|
    ensures var x' := Replace(x, p, "--");
            IsTail(x') && Replace(u + (t + x), p, "--") == (if u == "rustdesk" + p then "rustdesk--" else u) + (t + x')
  {
    TailReplace(x, p);
    TokenHasNoMarker(t, x, p);
    ReplaceClear(t, x, p, "--");
    if u == "rustdesk" + p {
      MarkerReplaced(u, t + x, p);
    } else {
      ShortPrefixClear(u, t + x, p);
      ReplaceClear(u, t + x, p, "--");
    }
  }

  lemma MarkerReplaced(u: string, y: string, p: string)
    requires u == "rustdesk" + p && p != "" && p[0] == '-'
    ensures Replace(u + y, p, "--") == "rustdesk--" + Replace(y, p, "--")
  {
    PrefixClear("rustdesk", p + y, p);
    assert u + y == "rustdesk" + (p + y);
    ReplaceClear("rustdesk", p + y, p, "--");
    ReplaceMatch(y, p, "--");
    assert "rustdesk" + ("--" + Replace(y, p, "--")) == "rustdesk--" + Replace(y, p, "--");
  }

  lemma PrefixClear(a: string, b: string, p: string)
    requires a == "rustdesk" && p != "" && p[0] == '-'
    ensures Clear(a, b, p)
  {
    forall i | 0 <= i < |a| ensures !(p <= (a + b)[i..]) {
      Mismatch(a + b, p, i, 0);
    }
  }

  /** A shorter marker than `p`, or none, in front of a token is no match for `p`. */
  lemma ShortPrefixClear(u: string, y: string, p: string)
    requires IsPrefix(u) && IsLicensed(p) && |u| <= 8 + |p| && u != "rustdesk" + p
    requires y != "" && y[0] != '-' && y[0] != 'l'
    ensures Clear(u, y, p)
  {
    forall i | 0 <= i < |u| ensures !(p <= (u + y)[i..]) {
      var s := u + y;
      Mismatch(s, p, i, if u[i] != '-' then 0 else if s[i + 1] != 'l' then 1 else |u| - 8);
    }
  }

  lemma Normalized(u: string, t: string, x: string) returns (x': string)
    requires IsPrefix(u) && Shaped(t) && IsTail(x)
    ensures IsTail(x') && Normalize(u + (t + x)) == "rustdesk--" + (t + x')
  {
    Pass(u, t, x, LICENSED3);
    var u1 := if u == "rustdesk" + LICENSED3 then "rustdesk--" else u;
    var x1 := Replace(x, LICENSED3, "--");
    Pass(u1, t, x1, LICENSED2);
    var u2 := if u1 == "rustdesk" + LICENSED2 then "rustdesk--" else u1;
    var x2 := Replace(x1, LICENSED2, "--");
    Pass(u2, t, x2, LICENSED1);
    x' := Replace(x2, LICENSED1, "--");
  }

  // ---- the pieces ---------------------------------------------------------

  /** The program's own name is not a token. */
  lemma BareNameFails(verify: Verifier)
    ensures FromPiece("rustdesk", verify) == None
  {
    var s := "rustdesk";
    assert TrimStart(s) == s && TrimEnd(s) == s;
    var r := Reverse(s);
    assert r == "ksedtsur";
    var v: seq<Sextet> := [36, 44, 30, 29, 45, 44, 46, 43];
    assert forall i :: 0 <= i < 8 ==> IsSymbol(r[i]) && SymbolValue(r[i]) == v[i];
    assert seq(|r|, i requires 0 <= i < |r| => SymbolValue(r[i])) == v;
    assert v[4..][4..] == [];
    assert FromSextets(v[4..][4..]) == Bytes([]);
    assert FromSextets(v[4..]) == Bytes([First(v[4..]), Second(v[4..]), Third(v[4..])]);
    var data := [First(v), Second(v), Third(v)] + [First(v[4..]), Second(v[4..]), Third(v[4..])];
    assert Decode(r) == Bytes(data);
    assert data[0] == 146;
    assert FirstChar(data) == None;
    assert FromSlice(data) == None;
    NoParenthesis(s);
  }

  lemma {:induction false} NoParenthesis(s: string)
    requires forall i :: 0 <= i < |s| ==> s[i] != '('
    ensures !Contains(s, "(")
  {
    if s != "" {
      assert "("[0] != s[0];
      NoParenthesis(s[1..]);
    }
  }

  lemma {:induction false} TrimEndKeeps(s: string, c: char)
    requires c in s && !IsWhite(c)
    ensures c in TrimEnd(s)
  {
    if IsWhite(s[|s| - 1]) {
      assert s == s[..|s| - 1] + [s[|s| - 1]];
      TrimEndKeeps(s[..|s| - 1], c);
    }
  }

  lemma TokenTrims(t: string, w: string)
    requires Shaped(t) && forall c :: c in w ==> IsWhite(c)
    ensures Trim(t + w) == t
  {
    assert (t + w)[0] == t[0];
    TrimEndWhite(t, w);
  }

  lemma TokenPiece(t: string, x: string, lic: CustomServer, verify: Verifier)
    requires Shaped(t) && IsEnd(x) && FromConfigString(t, verify) == Some(lic)
    ensures FromPiece(t + x, verify) == Some(lic)
  {
    var w, rest := EndForm(x);
    TokenTrims(t, w);
    if rest == "" {
      assert t + x == t + w;
      PlainPiece(t + w, t, lic, verify);
    } else {
      OpenedAt(t, x, w, rest);
      ParenthesisedPiece(t, w, rest[1..], t + x, lic, verify);
    }
  }

  lemma OpenedAt(t: string, x: string, w: string, rest: string)
    requires x == w + rest && rest != "" && rest[0] == '('
    ensures t + x == (t + w) + "(" + rest[1..]
  {
    assert rest == "(" + rest[1..];
  }

  lemma PlainPiece(s: string, t: string, lic: CustomServer, verify: Verifier)
    requires Trim(s) == t && FromConfigString(t, verify) == Some(lic)
    ensures FromPiece(s, verify) == Some(lic)
  {
  }

  lemma ParenthesisedPiece(t: string, w: string, z: string, s: string, lic: CustomServer, verify: Verifier)
    requires Shaped(t) && (forall c :: c in w ==> IsWhite(c)) && s == (t + w) + "(" + z
    requires Trim(t + w) == t && FromConfigString(t, verify) == Some(lic)
    ensures FromPiece(s, verify) == Some(lic)
  {
    forall i | 0 <= i < |t + w| ensures (t + w)[i] != '(' {
      assert i < |t| ==> IsSymbol(t[i]);
      assert i >= |t| ==> w[i - |t|] in w;
    }
    ParenthesisedFails(s, t, |t + w|, verify);
    ParenthesisSplits(t + w, z, s);
    FirstPartFound(Split(s, "("), t, lic, verify);
  }

  lemma FirstPartFound(parts: seq<string>, t: string, lic: CustomServer, verify: Verifier)
    requires parts != [] && Trim(parts[0]) == t && FromConfigString(t, verify) == Some(lic)
    ensures FirstRecord(parts, verify) == Some(lic)
  {
  }

  lemma ParenthesisSplits(a: string, z: string, s: string)
    requires s == a + "(" + z && (forall i :: 0 <= i < |a| ==> a[i] != '(')
    ensures Contains(s, "(") && Split(s, "(")[0] == a
  {
    assert "(" <= s[|a|..];
    ContainsAt(s, "(", |a|);
    forall i | 0 <= i < |a| ensures !("(" <= (a + ("(" + z))[i..]) {
      Mismatch(a + ("(" + z), "(", i, 0);
    }
    SplitStep(a, z, "(");
  }

  lemma ParenthesisedFails(s: string, t: string, k: nat, verify: Verifier)
    requires Shaped(t) && t <= s && k < |s| && s[k] == '('
    ensures FromConfigString(Trim(s), verify) == None
  {
    assert s[0] == t[0];
    assert TrimStart(s) == s;
    TrimEndKeeps(s, '(');
    var u := Trim(s);
    var i :| 0 <= i < |u| && u[i] == '(';
    assert Reverse(u)[|u| - 1 - i] == '(';
    assert !IsSymbol('(');
  }

  /** Splitting and trying the pieces of a normalised name finds the token. */
  lemma TokenFound(t: string, x: string, lic: CustomServer, verify: Verifier)
    requires Shaped(t) && IsTail(x) && FromConfigString(t, verify) == Some(lic)
    ensures FirstPiece(Split("rustdesk--" + (t + x), "--"), verify) == Some(lic)
  {
    assert "rustdesk--" + (t + x) == "rustdesk" + "--" + (t + x);
    PrefixClear("rustdesk", "--" + (t + x), "--");
    SplitStep("rustdesk", t + x, "--");
    TokenHasNoSeparator(t, x);
    SplitClear(t, x, "--");
    TailSplit(x);
    var pieces := Split("rustdesk--" + (t + x), "--");
    assert pieces[1..] == Split(t + x, "--") && pieces[1..][0] == t + Split(x, "--")[0];
    TokenPiece(t, Split(x, "--")[0], lic, verify);
    BareNameFails(verify);
    assert FirstPiece(pieces[1..], verify) == Some(lic);
  }

  // ---- extension and the other format -------------------------------------

  /** What stripping leaves of a tail that `.exe` follows: one more `.exe` goes. */
  function CutTail(x: string): string {
    if EndsWith(Lower(x), ".exe") then x[..|x| - 4] else x
  }

  lemma CutTailIsTail(x: string)
    requires IsTail(x)
    ensures IsTail(CutTail(x)) && CutTail(x) <= x
  {
    if EndsWith(Lower(x), ".exe") {
      assert Lower(x)[|x| - 4..][0] == '.';
      assert LowerChar(x[|x| - 4]) == '.';
      TailCut(x, |x| - 4);
    }
  }

  lemma SecondExe(m: string)
    ensures EndsWith(m + ".exe", ".exe.exe") <==> EndsWith(m, ".exe")
  {
    if |m| >= 4 {
      var tail := m[|m| - 4..];
      assert (m + ".exe")[|m| - 4..] == tail + ".exe";
      assert (tail + ".exe")[..4] == tail && ".exe.exe"[..4] == ".exe";
      assert ".exe.exe" == ".exe" + ".exe";
    }
  }

  lemma ExeInTail(a: string, b: string)
    requires forall i :: 0 <= i < |a| ==> a[i] != '.'
    ensures EndsWith(a + b, ".exe") <==> EndsWith(b, ".exe")
  {
    var s, n := a + b, |a| + |b|;
    if |b| >= 4 {
      assert s[n - 4..] == b[|b| - 4..];
    } else if n >= 4 {
      assert s[n - 4..][0] == a[n - 4];
    }
  }

  /** How a name may end behind `x`: in `.exe`, in any case, or in nothing, when `x` itself
      does not end so. */
  predicate IsExtension(x: string, ext: string) {
    Lower(ext) == ".exe" || (ext == "" && !EndsWith(Lower(x), ".exe"))
  }

  /** Stripping the extension leaves prefix and token alone. */
  lemma ExtensionStripped(base: string, x: string, ext: string)
    requires (forall i :: 0 <= i < |base| ==> base[i] != '.')
    requires IsTail(x) && IsExtension(x, ext)
    ensures IsTail(CutTail(x)) && CutTail(x) <= x && StripExe(base + x + ext) == base + CutTail(x)
  {
    CutTailIsTail(x);
    LowerConcat(base, x);
    ExeInTail(Lower(base), Lower(x));
    ExtensionCut(base, x, ext);
  }

  lemma ExtensionCut(a: string, x: string, ext: string)
    requires IsExtension(x, ext) && (EndsWith(Lower(a + x), ".exe") <==> EndsWith(Lower(x), ".exe"))
    ensures StripExe(a + x + ext) == a + CutTail(x)
  {
    if ext == "" {
      assert a + x + ext == a + x;
      NotTwice(Lower(a + x));
    } else {
      LowerConcat(a + x, ext);
      SecondExe(Lower(a + x));
      ExeLast(Lower(a + x));
      CutBehind(a, x, ext);
    }
  }

  lemma ExeLast(m: string)
    ensures EndsWith(m + ".exe", ".exe")
  {
  }

  lemma NotTwice(m: string)
    requires !EndsWith(m, ".exe")
    ensures !EndsWith(m, ".exe.exe")
  {
    if |m| >= 8 {
      assert m[|m| - 8..][4..] == m[|m| - 4..];
    }
  }

  lemma CutBehind(a: string, x: string, ext: string)
    requires |ext| == 4
    ensures var s := a + x + ext; s[..|s| - 4] == a + x && (|x| >= 4 ==> s[..|s| - 8] == a + x[..|x| - 4])
  {
  }

  /** No `host=` begins in a name without `=` that a tail follows. */
  lemma NoLabelStarts(base: string, x: string)
    requires (forall i :: 0 <= i < |base| ==> base[i] != '=') && IsTail(x)
    ensures Clear(Lower(base), Lower(x), "host=") && Lower(base + x) == Lower(base) + Lower(x)
  {
    LowerConcat(base, x);
    TailHead(x);
    LabelMismatches(Lower(base), Lower(x));
  }

  lemma TailHead(x: string)
    requires IsTail(x)
    ensures x != "" ==> Lower(x)[0] !in "host="
  {
    if x != "" {
      var n := Lower(x)[0] as int;
      assert x[0] == '(' || x[0] == '-' || IsWhite(x[0]);
      assert n != 'h' as int && n != 'o' as int && n != 's' as int && n != 't' as int && n != '=' as int;
    }
  }

  lemma LabelMismatches(a: string, b: string)
    requires forall i :: 0 <= i < |a| ==> a[i] != '='
    requires b != "" ==> b[0] !in "host="
    ensures Clear(a, b, "host=")
  {
    var p := "host=";
    forall i | 0 <= i < |a| ensures !(p <= (a + b)[i..]) {
      Mismatch(a + b, p, i, if i + 4 < |a| then 4 else |a| - i);
    }
  }

  /** The whole way from a file name to the record its token stands for. */
  lemma TokenNameFound(t: string, lic: CustomServer, u: string, x: string, ext: string, verify: Verifier)
    requires Shaped(t) && FromConfigString(t, verify) == Some(lic) && IsPrefix(u)
    requires IsTail(x) && IsExtension(x, ext) && !Contains(Lower(x), "host=")
    ensures FromName(u + t + x + ext, verify) == Some(lic)
  {
    PlainBase(u, t);
    ExtensionStripped(u + t, x, ext);
    var x1 := CutTail(x);
    LabelSurvivesCut(x);
    NoLabelStarts(u + t, x1);
    ContainsClear(Lower(u + t), Lower(x1), "host=");
    StrippedNameFound(t, lic, u, x1, verify);
    NameWithoutLabel(u + t + x + ext, u + t + x1, verify);
  }

  lemma StrippedNameFound(t: string, lic: CustomServer, u: string, x: string, verify: Verifier)
    requires Shaped(t) && FromConfigString(t, verify) == Some(lic) && IsPrefix(u) && IsTail(x)
    ensures FirstPiece(Split(Normalize(u + t + x), "--"), verify) == Some(lic)
  {
    Associate(u, t, x);
    var x' := Normalized(u, t, x);
    TokenFound(t, x', lic, verify);
  }

  /** Cutting a second `.exe` neither hides nor reveals a `host=` label. */
  lemma LabelSurvivesCut(x: string)
    ensures Contains(Lower(CutTail(x)), "host=") <==> Contains(Lower(x), "host=")
  {
    if EndsWith(Lower(x), ".exe") {
      var a := Lower(CutTail(x));
      assert Lower(x) == a + ".exe";
      if Contains(Lower(x), "host=") {
        NoLabelInExe(a);
      }
      if Contains(a, "host=") {
        ContainsPrefix(a, Lower(x), "host=");
      }
    }
  }

  lemma {:induction false} NoLabelInExe(a: string)
    requires Contains(a + ".exe", "host=")
    ensures Contains(a, "host=")
  {
    var s := a + ".exe";
    assert s[0..] == s;
    if |a| < 5 {
      Mismatch(s, "host=", 0, |a|);
    } else if "host=" <= s {
      assert forall k :: 0 <= k < 5 ==> a[k] == s[k];
    }
    if !("host=" <= s) {
      assert s != "" && Contains(s[1..], "host=");
      if a == "" {
        NoLabelInSuffix();
      } else {
        assert s[1..] == a[1..] + ".exe";
        NoLabelInExe(a[1..]);
      }
    }
  }

  lemma NoLabelInSuffix()
    ensures !Contains("exe", "host=") && !Contains(".exe", "host=")
  {
    var e := ".exe";
    assert e[1..] == "exe" && e[1..][1..] == "xe" && e[1..][1..][1..] == "e" && e[1..][1..][1..][1..] == "";
  }

  lemma NameWithoutLabel(name: string, s: string, verify: Verifier)
    requires StripExe(name) == s && !Contains(Lower(s), "host=")
    ensures FromName(name, verify) == FirstPiece(Split(Normalize(s), "--"), verify)
  {
  }

  lemma PlainBase(u: string, t: string)
    requires IsPrefix(u) && Shaped(t)
    ensures forall i :: 0 <= i < |u + t| ==> (u + t)[i] != '.' && (u + t)[i] != '='
  {
    forall i | 0 <= i < |u + t| ensures (u + t)[i] != '.' && (u + t)[i] != '=' {
      assert i < |u| ==> u[i] != '.' && u[i] != '=';
      assert i >= |u| ==> IsSymbol(t[i - |u|]);
    }
  }

  /** The licence codec's round trip. For every ASCII record, `rustdesk--T` and
      `rustdesk-licensed` with one, two or three dashes before the token T, then any white
      space, then nothing or `--` or `(` and any text, with `.exe` in any case or no extension,
      parses back to that record, provided the text does not itself contain a `host=`
      label. */
  lemma LicenceNameParsesBack(lic: CustomServer, u: string, x: string, ext: string, verify: Verifier)
    requires lic.Ascii() && IsPrefix(u) && IsAscii(x)
    requires IsTail(x) && IsExtension(x, ext) && !Contains(Lower(x), "host=")
    ensures FromName(u + GenName(lic) + x + ext, verify) == Some(lic)
  {
    GeneratedTokensAreShaped(lic);
    TokenDecodes(lic, verify);
    TokenNameFound(GenName(lic), lic, u, x, ext, verify);
  }

  /** With a `host=` label in the tail the token is never looked at. */
  lemma HostLabelHidesToken(t: string, u: string, x: string, ext: string, verify: Verifier)
    requires Shaped(t) && IsPrefix(u) && IsTail(x) && IsExtension(x, ext) && Contains(Lower(x), "host=")
    ensures Contains(Lower(CutTail(x)), "host=")
    ensures FromName(u + t + x + ext, verify) == Some(FromHostName(CutTail(x)))
  {
    PlainBase(u, t);
    ExtensionStripped(u + t, x, ext);
    LabelSurvivesCut(x);
    LabelledTail(u + t, CutTail(x));
    NameWithLabel(u + t + x + ext, u + t + CutTail(x), verify);
  }

  lemma LabelledTail(base: string, x: string)
    requires (forall i :: 0 <= i < |base| ==> base[i] != '=') && IsTail(x) && Contains(Lower(x), "host=")
    ensures Contains(Lower(base + x), "host=") && FromHostName(base + x) == FromHostName(x)
  {
    LabelledPart(base, x);
  }

  lemma LabelledPart(base: string, x: string)
    requires (forall i :: 0 <= i < |base| ==> base[i] != '=') && IsTail(x) && Contains(Lower(x), "host=")
    ensures Contains(Lower(base + x), "host=") && HostPart(base + x) == HostPart(x)
  {
    NoLabelStarts(base, x);
    FoundBehind(base, x, Lower(base), Lower(x), "host=");
  }

  lemma FoundBehind(base: string, x: string, a: string, b: string, p: string)
    requires |a| == |base| && |b| == |x| && Clear(a, b, p) && Contains(b, p)
    ensures Contains(a + b, p) && (base + x)[Find(a + b, p)..] == x[Find(b, p)..]
  {
    FindClear(a, b, p);
    var k := Find(b, p);
    assert k <= |x| && Find(a + b, p) == |base| + k;
    SuffixSame(base, x, k);
  }

  lemma SuffixSame(base: string, x: string, k: nat)
    requires k <= |x|
    ensures (base + x)[|base| + k..] == x[k..]
  {
  }

  lemma NameWithLabel(name: string, s: string, verify: Verifier)
    requires StripExe(name) == s && Contains(Lower(s), "host=")
    ensures FromName(name, verify) == Some(FromHostName(s))
  {
  }

  lemma TwoRecords() returns (a: CustomServer, b: CustomServer)
    ensures a.Ascii() && b.Ascii() && a != b
  {
    a, b := BLANK, BLANK.(key := "k");
  }

  /** Exactly the tails without a `host=` label keep every record readable. */
  lemma ReadableExactlyWithoutHostLabel(u: string, x: string, ext: string, verify: Verifier)
    requires IsPrefix(u) && IsAscii(x) && IsTail(x) && IsExtension(x, ext)
    ensures (forall lic: CustomServer | lic.Ascii() :: FromName(u + GenName(lic) + x + ext, verify) == Some(lic))
            <==> !Contains(Lower(x), "host=")
  {
    if Contains(Lower(x), "host=") {
      var a, b := TwoRecords();
      GeneratedTokensAreShaped(a);
      GeneratedTokensAreShaped(b);
      HostLabelHidesToken(GenName(a), u, x, ext, verify);
      HostLabelHidesToken(GenName(b), u, x, ext, verify);
    } else {
      forall lic: CustomServer | lic.Ascii() ensures FromName(u + GenName(lic) + x + ext, verify) == Some(lic) {
        LicenceNameParsesBack(lic, u, x, ext, verify);
      }
    }
  }
}
