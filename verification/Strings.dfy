/** The string operations of the standard library the modelled code leans on:
    left-to-right non-overlapping `replace` and `split`, `find`, ASCII
    lower-casing, trimming and reversal. */
module Strings {

  /** `p` occurs in `s`. */
  predicate Contains(s: string, p: string)
    decreases |s|
  {
    p <= s || (s != "" && Contains(s[1..], p))
  }

  /** Index of the first occurrence of `p` in `s`. */
  function Find(s: string, p: string): (i: nat)
    requires Contains(s, p)
    ensures i + |p| <= |s| && p <= s[i..]
    ensures forall j :: 0 <= j < i ==> !(p <= s[j..])
    decreases |s|
  {
    if p <= s then 0 else
      var i := Find(s[1..], p);
      assert forall j :: 1 <= j <= |s| ==> s[1..][j - 1..] == s[j..];
      i + 1
  }

  /** Every non-overlapping occurrence of `p`, scanning from the left, becomes `t`. */
  function Replace(s: string, p: string, t: string): string
    requires p != ""
    decreases |s|
  {
    if p <= s then t + Replace(s[|p|..], p, t)
    else if s == "" then ""
    else [s[0]] + Replace(s[1..], p, t)
  }

  /** The pieces between the non-overlapping occurrences of `p`. */
  function Split(s: string, p: string): (r: seq<string>)
    requires p != ""
    ensures r != []
    decreases |s|
  {
    if p <= s then [""] + Split(s[|p|..], p)
    else if s == "" then [""]
    else Glue(s[..1], Split(s[1..], p))
  }

  /** Prepends `a` to the first piece. */
  function Glue(a: string, pieces: seq<string>): (r: seq<string>)
    requires pieces != []
    ensures r != [] && |r| == |pieces|
  {
    [a + pieces[0]] + pieces[1..]
  }

  /** The pieces with `sep` between neighbours. */
  function Join(pieces: seq<string>, sep: string): string
  {
    if pieces == [] then ""
    else if |pieces| == 1 then pieces[0]
    else pieces[0] + sep + Join(pieces[1..], sep)
  }

  /** No occurrence of `p` in `a + b` starts inside `a`. */
  ghost predicate Clear(a: string, b: string, p: string) {
    forall i :: 0 <= i < |a| ==> !(p <= (a + b)[i..])
  }

  /** One differing character rules an occurrence out. */
  lemma Mismatch(s: string, p: string, i: nat, k: nat)
    requires i <= |s| && k < |p| && (i + k < |s| ==> s[i + k] != p[k])
    ensures !(p <= s[i..])
  {
    if i + k < |s| {
      assert s[i..][k] == s[i + k];
    }
  }

  lemma ClearTail(a: string, b: string, p: string)
    requires a != "" && Clear(a, b, p)
    ensures Clear(a[1..], b, p)
    ensures (a + b)[1..] == a[1..] + b
  {
    assert (a + b)[1..] == a[1..] + b;
    forall i | 0 <= i < |a[1..]| ensures !(p <= (a[1..] + b)[i..]) {
      assert (a[1..] + b)[i..] == (a + b)[i + 1..];
    }
  }

  lemma ClearHead(a: string, b: string, p: string)
    requires a != "" && Clear(a, b, p)
    ensures !(p <= a + b) && (a + b)[0] == a[0] && (a + b)[..1] == a[..1]
    ensures Clear(a[1..], b, p) && (a + b)[1..] == a[1..] + b
  {
    ClearTail(a, b, p);
    assert (a + b)[0..] == a + b;
  }

  lemma {:induction false} ReplaceClear(a: string, b: string, p: string, t: string)
    requires p != "" && Clear(a, b, p)
    ensures Replace(a + b, p, t) == a + Replace(b, p, t)
  {
    if a == "" {
      assert a + b == b;
    } else {
      ClearHead(a, b, p);
      ReplaceClear(a[1..], b, p, t);
      assert (a + b)[0] == a[0];
      assert [a[0]] + (a[1..] + Replace(b, p, t)) == a + Replace(b, p, t);
    }
  }

  lemma {:induction false} SplitClear(a: string, b: string, p: string)
    requires p != "" && Clear(a, b, p)
    ensures Split(a + b, p) == Glue(a, Split(b, p))
  {
    if a == "" {
      assert a + b == b;
      assert "" + Split(b, p)[0] == Split(b, p)[0];
    } else {
      ClearHead(a, b, p);
      SplitClear(a[1..], b, p);
      assert (a + b)[..1] + (a[1..] + Split(b, p)[0]) == a + Split(b, p)[0];
    }
  }

  lemma SplitMatch(b: string, p: string)
    requires p != ""
    ensures Split(p + b, p) == [""] + Split(b, p)
  {
    assert (p + b)[|p|..] == b;
  }

  lemma ReplaceMatch(b: string, p: string, t: string)
    requires p != ""
    ensures Replace(p + b, p, t) == t + Replace(b, p, t)
  {
    assert (p + b)[|p|..] == b;
  }

  /** A prefix no longer than the first part is a prefix of it. */
  lemma PrefixOfFront(p: string, a: string, b: string)
    requires |p| <= |a|
    ensures p <= a + b <==> p <= a
  {
    assert (a + b)[..|p|] == a[..|p|];
  }

  lemma Associate(a: string, b: string, c: string)
    ensures a + b + c == a + (b + c)
  {
  }

  /** A piece without `p`, then `p`, then the rest. */
  lemma ReplaceStep(a: string, b: string, p: string, t: string)
    requires p != "" && Clear(a, p + b, p)
    ensures Replace(a + (p + b), p, t) == a + t + Replace(b, p, t)
  {
    ReplaceClear(a, p + b, p, t);
    ReplaceMatch(b, p, t);
    Associate(a, t, Replace(b, p, t));
  }

  lemma SplitStep(a: string, b: string, p: string)
    requires p != "" && Clear(a, p + b, p)
    ensures Split(a + p + b, p) == [a] + Split(b, p)
  {
    assert a + p + b == a + (p + b);
    SplitClear(a, p + b, p);
    SplitMatch(b, p);
    assert a + "" == a;
  }

  lemma {:induction false} ContainsAt(s: string, p: string, i: nat)
    requires i <= |s| && p <= s[i..]
    ensures Contains(s, p)
    decreases |s|
  {
    if i == 0 {
      assert s[0..] == s;
    } else {
      assert s[i..] == s[1..][i - 1..];
      ContainsAt(s[1..], p, i - 1);
    }
  }

  lemma ContainsBehind(s: string, k: nat, p: string)
    requires k <= |s| && Contains(s[k..], p)
    ensures Contains(s, p)
  {
    var j := Find(s[k..], p);
    assert s[k..][j..] == s[k + j..];
    ContainsAt(s, p, k + j);
  }

  lemma ContainsPrefix(a: string, b: string, p: string)
    requires a <= b && Contains(a, p)
    ensures Contains(b, p)
  {
    var i := Find(a, p);
    assert p <= b[i..];
    ContainsAt(b, p, i);
  }

  lemma ContainsInner(s: string, x: string, p: string)
    requires Contains(s, x) && Contains(x, p)
    ensures Contains(s, p)
  {
    var i := Find(s, x);
    ContainsPrefix(x, s[i..], p);
    ContainsBehind(s, i, p);
  }

  lemma {:induction false} ReplaceAbsent(s: string, p: string, t: string)
    requires p != "" && !Contains(s, p)
    ensures Replace(s, p, t) == s
  {
    if s != "" {
      ReplaceAbsent(s[1..], p, t);
    }
  }

  lemma {:induction false} SplitAbsent(s: string, p: string)
    requires p != "" && !Contains(s, p)
    ensures Split(s, p) == [s]
  {
    if s != "" {
      SplitAbsent(s[1..], p);
      assert s == s[..1] + s[1..];
    }
  }

  lemma {:induction false} ContainsClear(a: string, b: string, p: string)
    requires Clear(a, b, p)
    ensures Contains(a + b, p) <==> Contains(b, p)
  {
    if a == "" {
      assert a + b == b;
    } else {
      ClearHead(a, b, p);
      ContainsClear(a[1..], b, p);
    }
  }

  lemma {:induction false} FindClear(a: string, b: string, p: string)
    requires Clear(a, b, p) && Contains(b, p)
    ensures Contains(a + b, p) && Find(a + b, p) == |a| + Find(b, p)
  {
    if a == "" {
      assert a + b == b;
    } else {
      ClearHead(a, b, p);
      FindClear(a[1..], b, p);
    }
  }

  /** Replacing is splitting and rejoining. */
  lemma {:induction false} ReplaceIsSplitJoin(s: string, p: string, t: string)
    requires p != ""
    ensures Replace(s, p, t) == Join(Split(s, p), t)
    decreases |s|
  {
    if p <= s {
      ReplaceIsSplitJoin(s[|p|..], p, t);
      assert ([""] + Split(s[|p|..], p))[1..] == Split(s[|p|..], p);
      assert "" + t == t;
    } else if s != "" {
      ReplaceIsSplitJoin(s[1..], p, t);
      JoinGlue(s[..1], Split(s[1..], p), t);
      assert s[..1] == [s[0]];
    }
  }

  lemma JoinGlue(a: string, pieces: seq<string>, sep: string)
    requires pieces != []
    ensures Join(Glue(a, pieces), sep) == a + Join(pieces, sep)
  {
    var g := Glue(a, pieces);
    assert g[0] == a + pieces[0] && g[1..] == pieces[1..];
    if |pieces| > 1 {
      assert (a + pieces[0]) + sep + Join(pieces[1..], sep) == a + (pieces[0] + sep + Join(pieces[1..], sep));
    }
  }

  /** Rejoining with the separator gives the text back. */
  lemma {:induction false} SplitJoin(s: string, p: string)
    requires p != ""
    ensures Join(Split(s, p), p) == s
    decreases |s|
  {
    if p <= s {
      SplitJoin(s[|p|..], p);
      assert ([""] + Split(s[|p|..], p))[1..] == Split(s[|p|..], p);
      assert s == "" + p + s[|p|..];
    } else if s != "" {
      SplitJoin(s[1..], p);
      JoinGlue(s[..1], Split(s[1..], p), p);
      assert s == s[..1] + s[1..];
    }
  }

  // ---- ASCII case folding -------------------------------------------------

  function LowerChar(c: char): char {
    if 'A' <= c <= 'Z' then (c as int + 32) as char else c
  }

  function Lower(s: string): (r: string)
    ensures |r| == |s|
    ensures forall i :: 0 <= i < |s| ==> r[i] == LowerChar(s[i])
  {
    seq(|s|, i requires 0 <= i < |s| => LowerChar(s[i]))
  }

  lemma LowerConcat(a: string, b: string)
    ensures Lower(a + b) == Lower(a) + Lower(b)
  {
  }

  predicate EndsWith(s: string, p: string) {
    |p| <= |s| && s[|s| - |p|..] == p
  }

  // ---- trimming and reversal ----------------------------------------------

  /** The code points of the Unicode property White_Space. */
  predicate IsWhite(c: char) {
    var n := c as int;
    9 <= n <= 13 || n == 32 || n == 0x85 || n == 0xA0 || n == 0x1680 || 0x2000 <= n <= 0x200A
    || n == 0x2028 || n == 0x2029 || n == 0x202F || n == 0x205F || n == 0x3000
  }

  function TrimStart(s: string): string {
    if s != "" && IsWhite(s[0]) then TrimStart(s[1..]) else s
  }

  function TrimEnd(s: string): string {
    if s != "" && IsWhite(s[|s| - 1]) then TrimEnd(s[..|s| - 1]) else s
  }

  function Trim(s: string): string {
    TrimEnd(TrimStart(s))
  }

  lemma {:induction false} TrimEndWhite(a: string, w: string)
    requires forall c :: c in w ==> IsWhite(c)
    ensures TrimEnd(a + w) == TrimEnd(a)
    decreases |w|
  {
    if w == "" {
      assert a + w == a;
    } else {
      var n := |w| - 1;
      assert (a + w)[|a + w| - 1] == w[n];
      assert w[n] in w;
      assert (a + w)[..|a + w| - 1] == a + w[..n];
      TrimEndWhite(a, w[..n]);
    }
  }

  function Reverse(s: string): (r: string)
    ensures |r| == |s|
    ensures forall i :: 0 <= i < |s| ==> r[i] == s[|s| - 1 - i]
  {
    seq(|s|, i requires 0 <= i < |s| => s[|s| - 1 - i])
  }

  lemma ReverseReverse(s: string)
    ensures Reverse(Reverse(s)) == s
  {
  }

  /** The first piece is what stands in front of the first separator. */
  lemma {:induction false} FirstPieceInFront(s: string, p: string)
    requires p != ""
    ensures Split(s, p)[0] <= s
    decreases |s|
  {
    if !(p <= s) && s != "" {
      FirstPieceInFront(s[1..], p);
      assert s == s[..1] + s[1..];
    }
  }
}
