/** Brand-name substitution in translated texts: the `replace` closure of
    `translate_locale` (rustdesk-master/src/lang.rs). */
module Branding {
  import opened Wrappers
  import opened Strings

  const BRAND := "RustDesk"
  const PLACEHOLDER := "#A-P-P-N-A-M-E#"

  /** The placeholder without its last character. */
  const TRAP := "#A-P-P-N-A-M-E"

  predicate ExemptKey(name: string) {
    "upgrade_rustdesk_server_pro" <= name || name == "powered_by_me"
  }

  /** Hide existing app names, brand the rest, bring the app names back. */
  function ThreeSteps(s: string, app: string): string
    requires app != ""
  {
    Replace(Replace(Replace(s, app, PLACEHOLDER), BRAND, app), PLACEHOLDER, app)
  }

  function Rebrand(s: string, app: string): string {
    if !Contains(app, BRAND) then Replace(s, BRAND, app)
    else if Contains(s, PLACEHOLDER) then s
    else ThreeSteps(s, app)
  }

  /** The translation with its `{}` filled in. */
  function Filled(text: string, value: Option<string>): string {
    if value.Some? then Replace(text, "{}", value.value) else text
  }

  /** The closure: fill the `{}` of the translation, then rebrand. */
  function Localize(text: string, name: string, value: Option<string>, app: string): string {
    var s := Filled(text, value);
    if app == BRAND || !Contains(s, BRAND) || ExemptKey(name) then s else Rebrand(s, app)
  }

  method ReplaceClosure(text: string, name: string, value: Option<string>, app: string) returns (s: string)
    ensures s == Localize(text, name, value, app)
  {
    s := text;
    if value.Some? {
      s := Replace(s, "{}", value.value);
    }
    if app != BRAND {
      if Contains(s, BRAND) && !ExemptKey(name) {
        if !Contains(app, BRAND) {
          s := Replace(s, BRAND, app);
        } else if !Contains(s, PLACEHOLDER) {
          s := Replace(s, app, PLACEHOLDER);
          s := Replace(s, BRAND, app);
          s := Replace(s, PLACEHOLDER, app);
        }
      }
    }
  }

  // ---- what the three steps are for ---------------------------------------

  function BrandEach(pieces: seq<string>, app: string): (r: seq<string>)
    ensures |r| == |pieces|
  {
    seq(|pieces|, i requires 0 <= i < |pieces| => Replace(pieces[i], BRAND, app))
  }

  /** Split at the app names already there, brand every piece, and rejoin. */
  function Branded(s: string, app: string): string
    requires app != ""
  {
    Join(BrandEach(Split(s, app), app), app)
  }

  /** Letters, digits and hyphens, with the brand inside. */
  predicate IsAppName(app: string) {
    (forall i :: 0 <= i < |app| ==>
      'A' <= app[i] <= 'Z' || 'a' <= app[i] <= 'z' || '0' <= app[i] <= '9' || app[i] == '-')
    && Contains(app, BRAND)
  }

  /** No app name in the text comes right behind an unfinished placeholder. */
  predicate NoTrap(pieces: seq<string>) {
    forall i :: 0 <= i < |pieces| - 1 ==> !EndsWith(pieces[i], TRAP)
  }

  lemma AppNameFacts(app: string)
    requires IsAppName(app)
    ensures app != "" && '#' !in app && 'R' in app
  {
    var i := Find(app, BRAND);
    assert app[i..][0] == 'R';
    assert app[i] == 'R';
  }

  // ---- the second step keeps the placeholders -----------------------------

  lemma PrefixAcross(a: string, b: string, p: string)
    requires p != "" && b != "" && b[0] !in p
    ensures p <= a + b <==> p <= a
  {
    assert (a + b)[0..] == a + b;
    if |a| < |p| {
      Mismatch(a + b, p, 0, |a|);
    } else {
      PrefixOfFront(p, a, b);
    }
  }

  lemma BehindPrefix(a: string, b: string, k: nat)
    requires k <= |a|
    ensures (a + b)[k..] == a[k..] + b && (k > 0 ==> (a + b)[0] == a[0])
  {
  }

  /** Replacement does not reach across a character foreign to the pattern. */
  lemma {:induction false} ReplaceSeparated(a: string, b: string, p: string, t: string)
    requires p != "" && b != "" && b[0] !in p
    ensures Replace(a + b, p, t) == Replace(a, p, t) + Replace(b, p, t)
    decreases |a|
  {
    PrefixAcross(a, b, p);
    if p <= a {
      BehindPrefix(a, b, |p|);
      ReplaceSeparated(a[|p|..], b, p, t);
      Associate(t, Replace(a[|p|..], p, t), Replace(b, p, t));
    } else if a == "" {
      assert a + b == b;
    } else {
      BehindPrefix(a, b, 1);
      ReplaceSeparated(a[1..], b, p, t);
      Associate([a[0]], Replace(a[1..], p, t), Replace(b, p, t));
    }
  }

  lemma PlaceholderKept(b: string, app: string)
    ensures Replace(PLACEHOLDER + b, BRAND, app) == PLACEHOLDER + Replace(b, BRAND, app)
  {
    forall i | 0 <= i < |PLACEHOLDER| ensures !(BRAND <= (PLACEHOLDER + b)[i..]) {
      Mismatch(PLACEHOLDER + b, BRAND, i, 0);
    }
    ReplaceClear(PLACEHOLDER, b, BRAND, app);
  }

  lemma {:induction false} BrandBetweenPlaceholders(pieces: seq<string>, app: string)
    requires pieces != []
    ensures Replace(Join(pieces, PLACEHOLDER), BRAND, app) == Join(BrandEach(pieces, app), PLACEHOLDER)
  {
    var qs := BrandEach(pieces, app);
    if |pieces| > 1 {
      var p, rest := pieces[0], Join(pieces[1..], PLACEHOLDER);
      assert Join(pieces, PLACEHOLDER) == p + (PLACEHOLDER + rest);
      ReplaceSeparated(p, PLACEHOLDER + rest, BRAND, app);
      PlaceholderKept(rest, app);
      BrandBetweenPlaceholders(pieces[1..], app);
      assert qs[1..] == BrandEach(pieces[1..], app);
    }
  }

  // ---- the third step -----------------------------------------------------

  /** A placeholder starts inside a piece only where the piece ends with the trap. */
  lemma OnlyTheTrapAt(q: string, rest: string, i: nat)
    requires !Contains(q, PLACEHOLDER) && i < |q|
    requires i == |q| - 14 ==> !EndsWith(q, TRAP)
    ensures !(PLACEHOLDER <= (q + (PLACEHOLDER + rest))[i..])
  {
    var d := |q| - i;
    if d >= 15 {
      PrefixOfPiece(q, PLACEHOLDER + rest, PLACEHOLDER, i);
    } else if d == 14 {
      NotTheTrap(q, PLACEHOLDER + rest, i);
    } else {
      NoOverlap(q, PLACEHOLDER + rest, i);
    }
  }

  lemma NoOverlap(q: string, more: string, i: nat)
    requires i < |q| < i + 14 && more != "" && more[0] == '#'
    ensures !(PLACEHOLDER <= (q + more)[i..])
  {
    var d := |q| - i;
    assert (q + more)[i + d] == '#';
    assert PLACEHOLDER[d] != '#';
    Mismatch(q + more, PLACEHOLDER, i, d);
  }

  lemma NotTheTrap(q: string, more: string, i: nat)
    requires i == |q| - 14 && !EndsWith(q, TRAP)
    ensures !(PLACEHOLDER <= (q + more)[i..])
  {
    var k := FirstDifference(q[i..], TRAP);
    assert (q + more)[i + k] == q[i..][k];
    assert PLACEHOLDER[..14] == TRAP;
    assert PLACEHOLDER[k] == TRAP[k];
    Mismatch(q + more, PLACEHOLDER, i, k);
  }

  lemma FirstDifference(a: string, b: string) returns (k: nat)
    requires |a| == |b| && a != b
    ensures k < |a| && a[k] != b[k]
  {
    k :| k < |a| && a[k] != b[k];
  }

  lemma PrefixOfPiece(q: string, more: string, p: string, i: nat)
    requires !Contains(q, p) && i + |p| <= |q|
    ensures !(p <= (q + more)[i..])
  {
    BehindPrefix(q, more, i);
    PrefixOfFront(p, q[i..], more);
    if p <= q[i..] {
      ContainsAt(q, p, i);
    }
  }

  lemma Regroup(q: string, more: string, k: nat)
    requires k <= |q|
    ensures q[..k] + (q[k..] + more) == q + more
  {
  }

  lemma OnlyTheTrap(q: string, rest: string, k: nat)
    requires !Contains(q, PLACEHOLDER) && k <= |q|
    requires EndsWith(q, TRAP) ==> k <= |q| - 14
    ensures q[..k] + (q[k..] + (PLACEHOLDER + rest)) == q + (PLACEHOLDER + rest)
    ensures Clear(q[..k], q[k..] + (PLACEHOLDER + rest), PLACEHOLDER)
  {
    Regroup(q, PLACEHOLDER + rest, k);
    forall i | 0 <= i < k ensures !(PLACEHOLDER <= (q + (PLACEHOLDER + rest))[i..]) {
      OnlyTheTrapAt(q, rest, i);
    }
  }

  /** Bringing the app names back works exactly when no piece but the last is a trap. */
  lemma {:induction false} Rejoin(qs: seq<string>, app: string)
    requires qs != [] && app != "" && '#' !in app
    requires forall i :: 0 <= i < |qs| ==> !Contains(qs[i], PLACEHOLDER)
    ensures Replace(Join(qs, PLACEHOLDER), PLACEHOLDER, app) == Join(qs, app) <==> NoTrap(qs)
  {
    if |qs| == 1 {
      ReplaceAbsent(qs[0], PLACEHOLDER, app);
    } else {
      var q, rest := qs[0], Join(qs[1..], PLACEHOLDER);
      assert Join(qs, PLACEHOLDER) == q + (PLACEHOLDER + rest);
      assert Join(qs, app) == q + (app + Join(qs[1..], app));
      if EndsWith(q, TRAP) {
        Trapped(q, rest, app, Join(qs[1..], app));
      } else {
        Untrapped(q, rest, app);
        Rejoin(qs[1..], app);
        SameFront(q + app, Replace(rest, PLACEHOLDER, app), Join(qs[1..], app));
        NoTrapTail(qs);
      }
    }
  }

  lemma Untrapped(q: string, rest: string, app: string)
    requires !Contains(q, PLACEHOLDER) && !EndsWith(q, TRAP)
    ensures Replace(q + (PLACEHOLDER + rest), PLACEHOLDER, app) == q + app + Replace(rest, PLACEHOLDER, app)
  {
    forall i | 0 <= i < |q| ensures !(PLACEHOLDER <= (q + (PLACEHOLDER + rest))[i..]) {
      OnlyTheTrapAt(q, rest, i);
    }
    ReplaceStep(q, rest, PLACEHOLDER, app);
  }

  lemma NoTrapTail(qs: seq<string>)
    requires |qs| > 1 && !EndsWith(qs[0], TRAP)
    ensures NoTrap(qs) <==> NoTrap(qs[1..])
  {
    if NoTrap(qs[1..]) {
      forall i | 0 <= i < |qs| - 1 ensures !EndsWith(qs[i], TRAP) {
        assert i > 0 ==> qs[i] == qs[1..][i - 1];
      }
    }
  }

  lemma SameFront(a: string, x: string, y: string)
    ensures a + x == a + y <==> x == y
  {
    if a + x == a + y {
      assert x == (a + x)[|a|..] && y == (a + y)[|a|..];
    }
  }

  /** A trapped app name: the placeholder is found one place too early. */
  lemma Trapped(q: string, rest: string, app: string, more: string)
    requires EndsWith(q, TRAP) && !Contains(q, PLACEHOLDER) && app != "" && '#' !in app
    ensures Replace(q + (PLACEHOLDER + rest), PLACEHOLDER, app) != q + (app + more)
  {
    var k := |q| - 14;
    var y, after := q[..k], q[k..] + (PLACEHOLDER + rest);
    OnlyTheTrap(q, rest, k);
    ReplaceClear(y, after, PLACEHOLDER, app);
    TrapCloses(q[k..], rest, app);
    assert (y + Replace(after, PLACEHOLDER, app))[k] == app[0];
    assert app[0] in app;
    assert (q + (app + more))[k] == TRAP[0];
  }

  lemma TrapCloses(trap: string, rest: string, app: string)
    requires trap == TRAP
    ensures app <= Replace(trap + (PLACEHOLDER + rest), PLACEHOLDER, app)
  {
    var tail := "A-P-P-N-A-M-E#" + rest;
    assert trap + (PLACEHOLDER + rest) == PLACEHOLDER + tail;
    ReplaceMatch(tail, PLACEHOLDER, app);
  }

  // ---- branding a piece neither makes nor breaks placeholders -------------

  lemma NotInFront(app: string, rest: string, z: string)
    requires IsAppName(app) && z != "" && z[|z| - 1] == '#' && 'R' !in z
    ensures !(z <= app + rest)
  {
    AppNameFacts(app);
    assert (app + rest)[0..] == app + rest;
    if |z| >= |app| {
      var r :| 0 <= r < |app| && app[r] == 'R';
      assert z[r] in z;
      Mismatch(app + rest, z, 0, r);
    } else {
      assert app[|z| - 1] in app;
      Mismatch(app + rest, z, 0, |z| - 1);
    }
  }

  lemma {:induction false} LiteralOnly(x: string, z: string, app: string)
    requires IsAppName(app) && z != "" && z[|z| - 1] == '#' && 'R' !in z
    requires z <= Replace(x, BRAND, app)
    ensures z <= x
    decreases |z|
  {
    if BRAND <= x {
      NotInFront(app, Replace(x[8..], BRAND, app), z);
    } else {
      var q := Replace(x, BRAND, app);
      assert z[0] == q[0] == x[0];
      if |z| > 1 {
        assert z[1..] <= q[1..];
        LiteralOnly(x[1..], z[1..], app);
      }
    }
  }

  lemma {:induction false} NoNewPlaceholder(x: string, app: string)
    requires IsAppName(app) && Contains(Replace(x, BRAND, app), PLACEHOLDER)
    ensures Contains(x, PLACEHOLDER)
    decreases |x|
  {
    AppNameFacts(app);
    if BRAND <= x {
      var rest := Replace(x[8..], BRAND, app);
      forall i | 0 <= i < |app| ensures !(PLACEHOLDER <= (app + rest)[i..]) {
        assert app[i] in app;
        Mismatch(app + rest, PLACEHOLDER, i, 0);
      }
      ContainsClear(app, rest, PLACEHOLDER);
      NoNewPlaceholder(x[8..], app);
      ContainsBehind(x, 8, PLACEHOLDER);
    } else if x != "" {
      var rest := Replace(x[1..], BRAND, app);
      if PLACEHOLDER <= [x[0]] + rest {
        LiteralOnly(x, PLACEHOLDER, app);
      } else {
        assert ([x[0]] + rest)[1..] == rest;
        NoNewPlaceholder(x[1..], app);
      }
    }
  }

  /** A text without an `R` is branded from the same text only. */
  lemma {:induction false} BrandedWithoutR(x: string, z: string, app: string)
    requires IsAppName(app) && 'R' !in z
    ensures Replace(x, BRAND, app) == z <==> x == z
    decreases |x|
  {
    AppNameFacts(app);
    if BRAND <= x {
      assert x[0] == 'R' && x[0] in x;
      assert Replace(x, BRAND, app)[..|app|] == app;
      assert 'R' in Replace(x, BRAND, app)[..|app|];
    } else if x != "" {
      if z == "" {
        assert Replace(x, BRAND, app) != "";
      } else {
        BrandedWithoutR(x[1..], z[1..], app);
        var q := Replace(x, BRAND, app);
        assert q[1..] == Replace(x[1..], BRAND, app);
        assert z == [z[0]] + z[1..] && x == [x[0]] + x[1..];
      }
    }
  }

  lemma EndsWithBehind(a: string, b: string)
    requires '#' !in a
    ensures EndsWith(a + b, TRAP) <==> EndsWith(b, TRAP)
  {
    var n := |a| + |b|;
    if |b| >= 14 {
      assert (a + b)[n - 14..] == b[|b| - 14..];
    } else if n >= 14 {
      assert (a + b)[n - 14..][0] == a[n - 14];
      assert a[n - 14] in a;
    }
  }

  lemma EndsWithStep(s: string)
    requires s != ""
    ensures EndsWith(s, TRAP) <==> s == TRAP || EndsWith(s[1..], TRAP)
  {
    if |s| >= 15 {
      assert s[1..][|s| - 1 - 14..] == s[|s| - 14..];
    } else if |s| == 14 {
      assert s[0..] == s;
    }
  }

  lemma {:induction false} TrapUnchanged(x: string, app: string)
    requires IsAppName(app)
    ensures EndsWith(Replace(x, BRAND, app), TRAP) <==> EndsWith(x, TRAP)
    decreases |x|
  {
    AppNameFacts(app);
    if BRAND <= x {
      TrapUnchanged(x[8..], app);
      EndsWithBehind(app, Replace(x[8..], BRAND, app));
      assert x == BRAND + x[8..];
      EndsWithBehind(BRAND, x[8..]);
    } else if x != "" {
      var q := Replace(x, BRAND, app);
      assert q[1..] == Replace(x[1..], BRAND, app);
      TrapUnchanged(x[1..], app);
      EndsWithStep(x);
      EndsWithStep(q);
      BrandedWithoutR(x, TRAP, app);
    }
  }

  /** What occurs in a piece occurs in the text. */
  lemma {:induction false} PieceContains(s: string, p: string, i: nat, x: string)
    requires p != "" && i < |Split(s, p)| && x != "" && Contains(Split(s, p)[i], x)
    ensures Contains(s, x)
    decreases |s|
  {
    var pieces := Split(s, p);
    if p <= s {
      if i > 0 {
        PieceContains(s[|p|..], p, i - 1, x);
        ContainsBehind(s, |p|, x);
      }
    } else if s != "" {
      var rest := Split(s[1..], p);
      if i == 0 && x <= pieces[0] {
        FirstPieceInFront(s, p);
        assert x <= s;
      } else {
        assert i == 0 ==> pieces[0][1..] == rest[0];
        PieceContains(s[1..], p, i, x);
      }
    }
  }

  lemma PiecesWithoutPlaceholder(s: string, app: string)
    requires app != "" && !Contains(s, PLACEHOLDER)
    ensures forall i :: 0 <= i < |Split(s, app)| ==> !Contains(Split(s, app)[i], PLACEHOLDER)
  {
    forall i | 0 <= i < |Split(s, app)| ensures !Contains(Split(s, app)[i], PLACEHOLDER) {
      if Contains(Split(s, app)[i], PLACEHOLDER) {
        PieceContains(s, app, i, PLACEHOLDER);
      }
    }
  }

  lemma PiecesWithoutHash(s: string, app: string)
    requires app != "" && '#' !in s
    ensures NoTrap(Split(s, app))
  {
    var pieces := Split(s, app);
    forall i | 0 <= i < |pieces| - 1 ensures !EndsWith(pieces[i], TRAP) {
      if EndsWith(pieces[i], TRAP) {
        var k := |pieces[i]| - 14;
        assert pieces[i][k..] == TRAP && "#" <= TRAP;
        ContainsAt(pieces[i], "#", k);
        PieceContains(s, app, i, "#");
        HeadFound(s, "#");
      }
    }
  }

  lemma HeadFound(s: string, p: string)
    requires p != "" && Contains(s, p)
    ensures p[0] in s
  {
    var i := Find(s, p);
    assert s[i..][0] == p[0];
    assert s[i] in s;
  }

  // ---- the results --------------------------------------------------------

  /** For every app name built from letters, digits and hyphens around the brand, and
      every text the placeholder guard lets through, the three steps do what they are for
      exactly when no app name in the text stands right behind `#A-P-P-N-A-M-E`. */
  lemma ThreeStepsExact(s: string, app: string)
    requires IsAppName(app) && !Contains(s, PLACEHOLDER)
    ensures app != "" && (ThreeSteps(s, app) == Branded(s, app) <==> NoTrap(Split(s, app)))
  {
    AppNameFacts(app);
    var pieces := Split(s, app);
    var qs := BrandEach(pieces, app);
    ReplaceIsSplitJoin(s, app, PLACEHOLDER);
    BrandBetweenPlaceholders(pieces, app);
    PiecesWithoutPlaceholder(s, app);
    forall i | 0 <= i < |qs|
      ensures !Contains(qs[i], PLACEHOLDER) && (EndsWith(qs[i], TRAP) <==> EndsWith(pieces[i], TRAP))
    {
      if Contains(qs[i], PLACEHOLDER) {
        NoNewPlaceholder(pieces[i], app);
      }
      TrapUnchanged(pieces[i], app);
    }
    Rejoin(qs, app);
  }

  /** Text without `#` is always safe. */
  lemma TextWithoutHash(s: string, app: string)
    requires IsAppName(app) && '#' !in s
    ensures !Contains(s, PLACEHOLDER) && app != "" && ThreeSteps(s, app) == Branded(s, app)
  {
    AppNameFacts(app);
    if Contains(s, PLACEHOLDER) {
      HeadFound(s, PLACEHOLDER);
    }
    PiecesWithoutHash(s, app);
    ThreeStepsExact(s, app);
  }

  /** The brand occurs inside existing app names only. */
  predicate NothingToBrand(pieces: seq<string>) {
    forall i :: 0 <= i < |pieces| ==> !Contains(pieces[i], BRAND)
  }

  lemma BrandedSame(s: string, app: string)
    requires app != "" && NothingToBrand(Split(s, app))
    ensures Branded(s, app) == s
  {
    var pieces := Split(s, app);
    forall i | 0 <= i < |pieces| ensures BrandEach(pieces, app)[i] == pieces[i] {
      ReplaceAbsent(pieces[i], BRAND, app);
    }
    assert BrandEach(pieces, app) == pieces;
    SplitJoin(s, app);
  }

  /** Existing app names are never doubled: a text whose brand occurs only inside them does
      not change, unless it is trapped. */
  lemma AppNamesKept(s: string, app: string)
    requires IsAppName(app) && !Contains(s, PLACEHOLDER) && app != "" && NothingToBrand(Split(s, app))
    ensures ThreeSteps(s, app) == s <==> NoTrap(Split(s, app))
  {
    ThreeStepsExact(s, app);
    BrandedSame(s, app);
  }

  // ---- the guarded branch leaves brands behind ----------------------------

  lemma AppNameLonger(app: string)
    requires IsAppName(app) && app != BRAND
    ensures |app| > |BRAND|
  {
    var i := Find(app, BRAND);
    assert app[0..] == app;
  }

  lemma {:induction false} BrandLengthens(x: string, app: string)
    requires |app| > |BRAND|
    ensures |Replace(x, BRAND, app)| >= |x|
    ensures Contains(x, BRAND) ==> |Replace(x, BRAND, app)| > |x|
    decreases |x|
  {
    if BRAND <= x {
      BrandLengthens(x[8..], app);
    } else if x != "" {
      BrandLengthens(x[1..], app);
    }
  }

  lemma {:induction false} JoinLengthens(a: seq<string>, b: seq<string>, sep: string)
    requires |a| == |b| && forall i :: 0 <= i < |a| ==> |a[i]| <= |b[i]|
    ensures |Join(a, sep)| <= |Join(b, sep)|
    ensures (exists i :: 0 <= i < |a| && |a[i]| < |b[i]|) ==> |Join(a, sep)| < |Join(b, sep)|
  {
    if |a| > 1 {
      JoinLengthens(a[1..], b[1..], sep);
      forall i | 0 < i < |a| && |a[i]| < |b[i]| ensures |Join(a[1..], sep)| < |Join(b[1..], sep)| {
        assert a[1..][i - 1] == a[i] && b[1..][i - 1] == b[i];
      }
    }
  }

  /** Leaving a text alone is right exactly when there is nothing to brand in it. */
  lemma LeftAloneExactly(s: string, app: string)
    requires |app| > |BRAND|
    ensures Branded(s, app) == s <==> NothingToBrand(Split(s, app))
  {
    if NothingToBrand(Split(s, app)) {
      BrandedSame(s, app);
    } else {
      var pieces := Split(s, app);
      forall i | 0 <= i < |pieces| ensures |pieces[i]| <= |BrandEach(pieces, app)[i]| {
        BrandLengthens(pieces[i], app);
      }
      var k :| 0 <= k < |pieces| && Contains(pieces[k], BRAND);
      BrandLengthens(pieces[k], app);
      assert |pieces[k]| < |BrandEach(pieces, app)[k]|;
      JoinLengthens(pieces, BrandEach(pieces, app), app);
      SplitJoin(s, app);
    }
  }

  /** A text without the brand has one piece, and nothing to brand in it. */
  lemma WithoutBrand(s: string, app: string)
    requires IsAppName(app) && !Contains(s, BRAND)
    ensures app != "" && Split(s, app) == [s]
  {
    AppNameFacts(app);
    if Contains(s, app) {
      ContainsInner(s, app, BRAND);
    }
    SplitAbsent(s, app);
  }

  /** The closure on every text, for an app name built around the brand: it brands exactly
      the text between existing app names if and only if, where the guard lets the text
      through, no app name is trapped, and where it does not, there is nothing to brand. */
  lemma LocalizeExact(text: string, name: string, value: Option<string>, app: string)
    requires IsAppName(app) && app != "RustDesk"
    requires !("upgrade_rustdesk_server_pro" <= name) && name != "powered_by_me"
    ensures var s := Filled(text, value);
            && app != ""
            && (Localize(text, name, value, app) == Branded(s, app) <==>
                  if Contains(s, PLACEHOLDER) then NothingToBrand(Split(s, app)) else NoTrap(Split(s, app)))
  {
    var s := Filled(text, value);
    AppNameFacts(app);
    AppNameLonger(app);
    LeftAloneExactly(s, app);
    if !Contains(s, BRAND) {
      WithoutBrand(s, app);
    } else if !Contains(s, PLACEHOLDER) {
      ThreeStepsExact(s, app);
    }
  }

  /** Any other app name simply stands where the brand stood. */
  lemma OtherAppName(text: string, name: string, value: Option<string>, app: string)
    requires !Contains(app, BRAND) && !("upgrade_rustdesk_server_pro" <= name) && name != "powered_by_me"
    ensures Localize(text, name, value, app) == Join(Split(Filled(text, value), BRAND), app)
  {
    var s := Filled(text, value);
    ReplaceIsSplitJoin(s, BRAND, app);
    if !Contains(s, BRAND) {
      ReplaceAbsent(s, BRAND, app);
    }
    assert BRAND <= BRAND;
  }

  /** The program under its own name, and two texts about its maker, are never rebranded. */
  lemma ExemptTextsKept(text: string, name: string, value: Option<string>, app: string)
    requires app == "RustDesk" || "upgrade_rustdesk_server_pro" <= name || name == "powered_by_me"
    ensures Localize(text, name, value, app) == Filled(text, value)
  {
  }

  /** The value stands at every `{}` of the translation, and nowhere else. */
  lemma FilledIn(text: string, value: Option<string>)
    ensures Filled(text, value) == if value.Some? then Join(Split(text, "{}"), value.value) else Join(Split(text, "{}"), "{}")
  {
    if value.Some? {
      ReplaceIsSplitJoin(text, "{}", value.value);
    } else {
      SplitJoin(text, "{}");
    }
  }

  /** A text the guard turns away keeps its brand. */
  lemma GuardLeavesBrand()
    ensures var s, app := PLACEHOLDER + " RustDesk", "RustDesk-Admin";
            IsAppName(app) && Localize(s, "", None, app) == s && s != Branded(s, app)
  {
    var app := "RustDesk-Admin";
    var s := PLACEHOLDER + " RustDesk";
    AdminIsAppName(app);
    ContainsAt(s, PLACEHOLDER, 0);
    assert s[16..] == BRAND;
    ContainsAt(s, BRAND, 16);
    NoRoom(s, app);
    SplitAbsent(s, app);
    assert Contains(Split(s, app)[0], BRAND);
    LocalizeExact(s, "", None, app);
  }

  lemma {:induction false} NoRoom(s: string, p: string)
    requires p != "" && forall i :: 0 <= i <= |s| - |p| ==> s[i] != p[0]
    ensures !Contains(s, p)
  {
    if s != "" {
      if |p| <= |s| {
        Mismatch(s, p, 0, 0);
        assert s[0..] == s;
      }
      NoRoom(s[1..], p);
    }
  }

  lemma AdminIsAppName(app: string)
    requires app == "RustDesk-Admin"
    ensures IsAppName(app) && app != BRAND && '#' !in app
  {
    assert BRAND <= app;
  }

  /** The guard on the whole placeholder does not rule the trap out. */
  lemma GuardIsNotEnough()
    ensures var s, app := TRAP + "RustDesk-Admin", "RustDesk-Admin";
            IsAppName(app) && !Contains(s, PLACEHOLDER) && ThreeSteps(s, app) != Branded(s, app)
  {
    var app := "RustDesk-Admin";
    AdminIsAppName(app);
    TrapNotYet(app);
    TrapSplit(app);
    assert EndsWith(Split(TRAP + app, app)[0], TRAP);
    ThreeStepsExact(TRAP + app, app);
  }

  lemma TrapNotYet(app: string)
    requires '#' !in app && app != ""
    ensures !Contains(TRAP + app, PLACEHOLDER)
  {
    var s := TRAP + app;
    forall i | 0 <= i < |s| ensures !(PLACEHOLDER <= (s + "")[i..]) {
      assert i >= 14 ==> s[i] in app;
      assert s[14] in app;
      Mismatch(s + "", PLACEHOLDER, i, if i == 0 then 14 else 0);
    }
    ContainsClear(s, "", PLACEHOLDER);
    assert s + "" == s;
  }

  lemma TrapSplit(app: string)
    requires app != "" && app[0] == 'R'
    ensures Split(TRAP + app, app) == [TRAP, ""]
  {
    forall i | 0 <= i < |TRAP| ensures !(app <= (TRAP + (app + ""))[i..]) {
      Mismatch(TRAP + (app + ""), app, i, 0);
    }
    assert TRAP + app == TRAP + app + "";
    SplitStep(TRAP, "", app);
    assert Split("", app) == [""];
  }
}
