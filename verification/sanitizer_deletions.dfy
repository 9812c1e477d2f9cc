/** What is left after the sanitiser's scheme deletions (sanitize.interceptor.ts), read off
    the text before them: each pass deletes all copies of one pattern, and so may join the
    halves of another. */
module SanitizerDeletions {
  import opened Ascii
  import opened Options
  import opened Sanitizer

  /** The pattern's only colon is its last character. */
  predicate ColonEnded(p: string) {
    p != [] && forall i | 0 <= i < |p| :: p[i] == ':' <==> i == |p| - 1
  }

  predicate ProperEnd(q: string, p: string) {
    |q| < |p| && p[|p| - |q|..] == q
  }

  /** Patterns of successive passes, none of them a proper end of an earlier one. */
  predicate Passes(ps: seq<string>) {
    && (forall i | 0 <= i < |ps| :: ColonEnded(ps[i]))
    && (forall i, j | 0 <= i < j < |ps| :: !ProperEnd(ps[j], ps[i]))
  }

  /** `q` is a proper end of none of the patterns. */
  predicate Apart(q: string, ps: seq<string>) {
    ColonEnded(q) && forall i | 0 <= i < |ps| :: !ProperEnd(q, ps[i])
  }

  /** One pass after the other. */
  function DropAll(s: string, ps: seq<string>): string
    requires forall i | 0 <= i < |ps| :: ps[i] != []
  {
    if ps == [] then s else DeleteAll(DropAll(s, ps[..|ps| - 1]), ps[|ps| - 1])
  }

  // ---------------------------------------------------------------- reading through the passes

  /** The first character of `x` that survives the passes, and what follows it: whole copies
      of the last pattern, themselves read through the earlier passes, are skipped. */
  function ReadChar(x: string, ps: seq<string>): (r: Option<(char, string)>)
    requires forall i | 0 <= i < |ps| :: ps[i] != []
    ensures r.Some? ==> |r.value.1| < |x|
    decreases |ps|, |x|, 0
  {
    if ps == [] then (if x == [] then None else Some((x[0], x[1..])))
    else
      var earlier, p := ps[..|ps| - 1], ps[|ps| - 1];
      var copy := ReadWord(x, earlier, p);
      if copy.Some? then ReadChar(copy.value, ps) else ReadChar(x, earlier)
  }

  /** The letters of `w`, ASCII case ignored, at the front of `x` with whole copies of
      deleted patterns before and between them; and what follows the last letter. */
  function ReadWord(x: string, ps: seq<string>, w: string): (r: Option<string>)
    requires forall i | 0 <= i < |ps| :: ps[i] != []
    ensures r.Some? ==> |r.value| <= |x| && (w != [] ==> |r.value| < |x|)
    decreases |ps|, |x|, 1
  {
    if w == [] then Some(x)
    else
      var first := ReadChar(x, ps);
      if first.Some? && Lower(first.value.0) == w[0] then ReadWord(first.value.1, ps, w[1..]) else None
  }

  /** `q` stands at the front of `x`, woven with copies of the patterns. */
  predicate Woven(x: string, ps: seq<string>, q: string)
    requires forall i | 0 <= i < |ps| :: ps[i] != []
  {
    ReadWord(x, ps, q).Some?
  }

  ghost predicate ReadsChar(x: string, ps: seq<string>, r: Option<(char, string)>)
    requires forall i | 0 <= i < |ps| :: ps[i] != []
  {
    match r
    case None => DropAll(x, ps) == []
    case Some(read) => DropAll(x, ps) == [read.0] + DropAll(read.1, ps)
  }

  /** What is read first is what the passes leave first. */
  lemma {:induction false} ReadCharIsRight(x: string, ps: seq<string>)
    requires forall i | 0 <= i < |ps| :: ps[i] != []
    ensures ReadsChar(x, ps, ReadChar(x, ps))
    decreases |ps|, |x|, 0
  {
    if ps != [] {
      var earlier, p := ps[..|ps| - 1], ps[|ps| - 1];
      var copy := ReadWord(x, earlier, p);
      ReadWordIsRight(x, earlier, p);
      if copy.Some? {
        ReadCharIsRight(copy.value, ps);
      } else {
        ReadCharIsRight(x, earlier);
      }
    }
  }

  lemma {:induction false} ReadWordIsRight(x: string, ps: seq<string>, w: string)
    requires forall i | 0 <= i < |ps| :: ps[i] != []
    ensures Woven(x, ps, w) <==> StartsWith(DropAll(x, ps), w)
    ensures Woven(x, ps, w) ==> DropAll(x, ps)[|w|..] == DropAll(ReadWord(x, ps, w).value, ps)
    decreases |ps|, |x|, 1
  {
    if w != [] {
      var first := ReadChar(x, ps);
      ReadCharIsRight(x, ps);
      if first.Some? {
        ReadWordIsRight(first.value.1, ps, w[1..]);
        StartsWithCons(first.value.0, DropAll(first.value.1, ps), w);
      }
    }
  }

  lemma StartsWithCons(c: char, s: string, w: string)
    requires w != []
    ensures StartsWith([c] + s, w) <==> Lower(c) == w[0] && StartsWith(s, w[1..])
    ensures StartsWith([c] + s, w) ==> ([c] + s)[|w|..] == s[|w| - 1..]
  {
    var t := [c] + s;
    assert forall i | 0 < i < |t| :: t[i] == s[i - 1];
    if Lower(c) == w[0] && StartsWith(s, w[1..]) {
      forall i | 0 <= i < |w| ensures Lower(t[i]) == w[i] {
        assert i > 0 ==> w[i] == w[1..][i - 1];
      }
    }
    if StartsWith(t, w) {
      forall i | 0 <= i < |w[1..]| ensures Lower(s[i]) == w[1..][i] {
        assert t[i + 1] == s[i] && w[i + 1] == w[1..][i];
      }
    }
  }

  // ---------------------------------------------------------------- suffixes

  /** `e` is a proper end of a copy of `p`. */
  predicate EndOf(e: string, p: string) {
    0 < |e| < |p| && forall i | 0 <= i < |e| :: Lower(e[i]) == p[|p| - |e| + i]
  }

  /** A pattern that begins inside such an end goes on to its colon and no further. */
  lemma MatchFromEnd(e: string, w: string, p: string, q: string, m: nat)
    requires ColonEnded(p) && ColonEnded(q) && EndOf(e, p) && m < |e| && StartsWith((e + w)[m..], q)
    ensures |q| <= |e| && p[|p| - |q|..] == q
  {
    var x := (e + w)[m..];
    assert forall i | 0 <= i < |e| - m :: x[i] == e[m + i];
    assert forall i | 0 <= i < |e| :: Lower(e[i]) == ':' <==> i == |e| - 1;
    assert forall i | 0 <= i < |e| - m :: Lower(x[i]) == ':' <==> i == |e| - m - 1;
    assert Lower(x[|e| - m - 1]) == ':' && Lower(x[|q| - 1]) == ':';
    assert |q| == |e| - m;
    forall i | 0 <= i < |q| ensures q[i] == p[|p| - |q|..][i] {
      assert Lower(x[i]) == q[i];
    }
  }

  /** No other pattern begins inside such an end. */
  lemma NoMatchFromEnd(e: string, w: string, p: string, q: string, m: nat)
    requires ColonEnded(p) && ColonEnded(q) && !ProperEnd(q, p) && EndOf(e, p) && m < |e|
    ensures !StartsWith((e + w)[m..], q)
  {
    if StartsWith((e + w)[m..], q) {
      MatchFromEnd(e, w, p, q, m);
    }
  }

  lemma EndPassed(e: string, w: string, p: string, q: string)
    requires ColonEnded(p) && ColonEnded(q) && !ProperEnd(q, p) && EndOf(e, p)
    ensures DeleteAll(e + w, q) == e + DeleteAll(w, q)
  {
    forall m | 0 <= m < |e| ensures !StartsWith((e + w)[m..], q) {
      NoMatchFromEnd(e, w, p, q, m);
    }
    DeleteAllSkips(e, w, q);
  }

  lemma {:induction false} EndPassedAll(e: string, w: string, p: string, ps: seq<string>)
    requires ColonEnded(p) && EndOf(e, p)
    requires forall i | 0 <= i < |ps| :: ps[i] != [] && ColonEnded(ps[i]) && !ProperEnd(ps[i], p)
    ensures DropAll(e + w, ps) == e + DropAll(w, ps)
  {
    if ps != [] {
      EndPassedAll(e, w, p, ps[..|ps| - 1]);
      EndPassed(e, DropAll(w, ps[..|ps| - 1]), p, ps[|ps| - 1]);
    }
  }

  /** A pass over a suffix leaves a suffix of what it leaves of the whole, behind the end of
      a copy if the suffix began inside one. */
  lemma {:induction false} PassOverSuffix(t: string, p: string, i: nat) returns (e: string, j: nat)
    requires ColonEnded(p) && i <= |t|
    ensures j <= |DeleteAll(t, p)| && DeleteAll(t[i..], p) == e + DeleteAll(t, p)[j..]
    ensures e == [] || EndOf(e, p)
    decreases |t|
  {
    if i == 0 {
      e, j := [], 0;
      assert t[0..] == t;
    } else if StartsWith(t, p) && i >= |p| {
      assert t[|p|..][i - |p|..] == t[i..];
      e, j := PassOverSuffix(t[|p|..], p, i - |p|);
    } else if StartsWith(t, p) {
      e, j := CutCopy(t, p, i);
    } else {
      assert t[1..][i - 1..] == t[i..];
      e, j := PassOverSuffix(t[1..], p, i - 1);
      assert DeleteAll(t, p)[j + 1..] == DeleteAll(t[1..], p)[j..];
      j := j + 1;
    }
  }

  lemma CutCopy(t: string, p: string, i: nat) returns (e: string, j: nat)
    requires ColonEnded(p) && 0 < i < |p| && StartsWith(t, p)
    ensures j == 0 && EndOf(e, p) && DeleteAll(t[i..], p) == e + DeleteAll(t, p)[j..]
  {
    e, j := t[i..|p|], 0;
    var rest := t[|p|..];
    assert t[i..] == e + rest;
    EndPassed(e, rest, p, p);
    assert DeleteAll(t, p)[0..] == DeleteAll(t, p);
  }

  lemma {:induction false} DropFront(s: string, ps: seq<string>)
    requires ps != [] && forall i | 0 <= i < |ps| :: ps[i] != []
    ensures DropAll(s, ps) == DropAll(DeleteAll(s, ps[0]), ps[1..])
  {
    if |ps| > 1 {
      var front := ps[..|ps| - 1];
      DropFront(s, front);
      assert ps[1..][..|ps[1..]| - 1] == front[1..];
    }
  }

  /** What stands at the front of a suffix's output stands in the whole output. */
  lemma {:induction false} FoundFromSuffix(t: string, ps: seq<string>, q: string, i: nat)
    requires Passes(ps) && Apart(q, ps) && i <= |t| && StartsWith(DropAll(t[i..], ps), q)
    ensures Contains(DropAll(t, ps), q)
    decreases |ps|
  {
    if ps != [] {
      var p, later := ps[0], ps[1..];
      var u := DeleteAll(t, p);
      var e, j := PassOverSuffix(t, p, i);
      DropFront(t, ps);
      DropFront(t[i..], ps);
      if e == [] {
        assert e + u[j..] == u[j..];
        FoundFromSuffix(u, later, q, j);
      } else {
        var rest := DropAll(u[j..], later);
        assert (e + rest)[0..] == e + rest;
        EndPassedAll(e, u[j..], p, later);
        NoMatchFromEnd(e, rest, p, q, 0);
      }
    }
  }

  /** Every suffix of the output is the output of some suffix. */
  lemma {:induction false} SuffixOfPass(t: string, p: string, j: nat) returns (i: nat)
    requires p != [] && j <= |DeleteAll(t, p)|
    ensures i <= |t| && DeleteAll(t[i..], p) == DeleteAll(t, p)[j..]
    decreases |t|
  {
    if j == 0 {
      i := 0;
      assert t[0..] == t && DeleteAll(t, p)[0..] == DeleteAll(t, p);
    } else if StartsWith(t, p) {
      i := SuffixOfPass(t[|p|..], p, j);
      assert t[|p|..][i..] == t[|p| + i..];
      i := |p| + i;
    } else {
      KeptFirst(t, p, j);
      i := SuffixOfPass(t[1..], p, j - 1);
      assert t[1..][i..] == t[1 + i..];
      i := 1 + i;
    }
  }

  lemma KeptFirst(t: string, p: string, j: nat)
    requires p != [] && t != [] && !StartsWith(t, p) && 0 < j <= |DeleteAll(t, p)|
    ensures |DeleteAll(t, p)| == |DeleteAll(t[1..], p)| + 1
    ensures DeleteAll(t, p)[j..] == DeleteAll(t[1..], p)[j - 1..]
  {
  }

  lemma {:induction false} SuffixOfAll(t: string, ps: seq<string>, j: nat) returns (i: nat)
    requires (forall k | 0 <= k < |ps| :: ps[k] != []) && j <= |DropAll(t, ps)|
    ensures i <= |t| && DropAll(t[i..], ps) == DropAll(t, ps)[j..]
    decreases |ps|
  {
    if ps == [] {
      i := j;
    } else {
      var earlier := ps[..|ps| - 1];
      i := SuffixOfPass(DropAll(t, earlier), ps[|ps| - 1], j);
      i := SuffixOfAll(t, earlier, i);
    }
  }

  /** Exactly when a pattern is left after the passes: somewhere in the text before them it
      stands woven with whole copies of the deleted patterns, the pattern itself among them. */
  lemma LeftExactlyWhenWoven(t: string, ps: seq<string>, q: string)
    requires Passes(ps) && Apart(q, ps)
    ensures Contains(DropAll(t, ps), q) <==> exists i :: 0 <= i <= |t| && Woven(t[i..], ps, q)
  {
    if Contains(DropAll(t, ps), q) {
      var j :| 0 <= j <= |DropAll(t, ps)| && StartsWith(DropAll(t, ps)[j..], q);
      var i := SuffixOfAll(t, ps, j);
      ReadWordIsRight(t[i..], ps, q);
    }
    if i :| 0 <= i <= |t| && Woven(t[i..], ps, q) {
      ReadWordIsRight(t[i..], ps, q);
      FoundFromSuffix(t, ps, q, i);
    }
  }

  // ---------------------------------------------------------------- the schemes

  lemma EndsDiffer(q: string, p: string, i: nat)
    requires i < |q| < |p| && p[|p| - |q| + i] != q[i]
    ensures !ProperEnd(q, p)
  {
    assert p[|p| - |q|..][i] == p[|p| - |q| + i];
  }

  lemma PassesOfThree(a: string, b: string, c: string)
    requires ColonEnded(a) && ColonEnded(b) && ColonEnded(c) && |b| < |c| < |a|
    requires !ProperEnd(b, a) && !ProperEnd(c, a) && !ProperEnd(b, c)
    ensures var ps := [a, b, c]; Passes(ps) && forall k | 0 <= k < |ps| :: Apart(ps[k], ps)
  {
  }

  lemma ThreeSchemes()
    ensures ColonEnded("javascript:") && ColonEnded("data:") && ColonEnded("vbscript:")
  {
  }

  lemma SchemesArePasses()
    ensures Passes(SCHEMES) && forall k | 0 <= k < |SCHEMES| :: Apart(SCHEMES[k], SCHEMES)
  {
    ThreeSchemes();
    EndsDiffer("data:", "javascript:", 0);
    EndsDiffer("vbscript:", "javascript:", 1);
    EndsDiffer("data:", "vbscript:", 0);
    PassesOfThree("javascript:", "data:", "vbscript:");
  }

  lemma DropAllOfThree(s: string, a: string, b: string, c: string)
    requires a != [] && b != [] && c != []
    ensures DropAll(s, [a, b, c]) == DeleteAll(DeleteAll(DeleteAll(s, a), b), c)
  {
    assert [a, b, c][..2] == [a, b] && [a, b][..1] == [a] && [a][..0] == [];
    assert DropAll(s, [a]) == DeleteAll(DropAll(s, []), a);
    assert DropAll(s, [a, b]) == DeleteAll(DropAll(s, [a]), b);
  }

  lemma DropSchemesIsDropAll(s: string)
    requires forall i | 0 <= i < |SCHEMES| :: SCHEMES[i] != []
    ensures DropSchemes(s) == DropAll(s, SCHEMES)
  {
    DropAllOfThree(s, SCHEMES[0], SCHEMES[1], SCHEMES[2]);
    assert SCHEMES == [SCHEMES[0], SCHEMES[1], SCHEMES[2]];
  }

  // ---------------------------------------------------------------- trimming

  lemma {:induction false} TrimLeftWhite(s: string) returns (k: nat)
    ensures k <= |s| && TrimLeft(s) == s[k..] && forall i | 0 <= i < k :: White(s[i])
  {
    k := 0;
    if s != [] && White(s[0]) {
      var n := TrimLeftWhite(s[1..]);
      k := n + 1;
      assert s[1..][n..] == s[k..];
      forall i | 0 <= i < k ensures White(s[i]) {
        assert i > 0 ==> s[i] == s[1..][i - 1];
      }
    }
  }

  lemma TrimWhite(s: string) returns (k: nat, m: nat)
    ensures k <= m <= |s| && Trim(s) == s[k..m]
    ensures forall i | 0 <= i < k || m <= i < |s| :: White(s[i])
  {
    k := TrimLeftWhite(s);
    var t := s[k..];
    TrimRightDrops(t);
    var n :| 0 <= n <= |t| && TrimRight(t) == t[..n] && (forall i :: n <= i < |t| ==> White(t[i]));
    m := k + n;
    forall i | m <= i < |s| ensures White(s[i]) {
      assert s[i] == t[i - k];
    }
  }

  lemma WhiteIsNoLetter(q: string, c: char, i: nat)
    requires q in SCHEMES && i < |q| && White(c)
    ensures Lower(c) != q[i]
  {
    assert Lower(c) == c;
    assert 'a' <= q[i] <= 'z' || q[i] == ':';
  }

  /** A match lies within what trimming keeps. */
  lemma MatchIsKept(s: string, q: string, i: nat, k: nat, m: nat)
    requires q in SCHEMES && i <= |s| && StartsWith(s[i..], q) && k <= m <= |s|
    requires forall x | 0 <= x < k || m <= x < |s| :: White(s[x])
    ensures k <= i && i + |q| <= m
  {
    if i < k {
      assert s[i..][0] == s[i];
      WhiteIsNoLetter(q, s[i], 0);
    }
    if i + |q| > m {
      var last := |q| - 1;
      assert s[i..][last] == s[i + last];
      WhiteIsNoLetter(q, s[i + last], last);
    }
  }

  lemma FoundInSlice(s: string, q: string, k: nat, m: nat, i: nat)
    requires k <= i && i + |q| <= m <= |s| && StartsWith(s[i..], q)
    ensures Contains(s[k..m], q)
  {
    var t := s[k..m];
    forall x | 0 <= x < |q| ensures Lower(t[i - k..][x]) == q[x] {
      assert t[i - k..][x] == s[i..][x];
    }
    assert StartsWith(t[i - k..], q);
  }

  lemma FoundAround(s: string, q: string, k: nat, m: nat)
    requires k <= m <= |s| && Contains(s[k..m], q)
    ensures Contains(s, q)
  {
    var t := s[k..m];
    var i :| 0 <= i <= |t| && StartsWith(t[i..], q);
    forall x | 0 <= x < |q| ensures Lower(s[k + i..][x]) == q[x] {
      assert s[k + i..][x] == t[i..][x];
    }
    assert StartsWith(s[k + i..], q);
  }

  /** Trimming neither hides nor makes a scheme. */
  lemma TrimKeepsSchemes(s: string, q: string)
    requires q in SCHEMES
    ensures Contains(Trim(s), q) <==> Contains(s, q)
  {
    var k, m := TrimWhite(s);
    if Contains(s, q) {
      var i :| 0 <= i <= |s| && StartsWith(s[i..], q);
      MatchIsKept(s, q, i, k, m);
      FoundInSlice(s, q, k, m, i);
    }
    if Contains(s[k..m], q) {
      FoundAround(s, q, k, m);
    }
  }

  // ---------------------------------------------------------------- sanitising twice

  /** The text the deletions are applied to. */
  function BeforeDeletions(s: string): string {
    RemoveChar(Canonicalise(s), '\0')
  }

  ghost predicate SchemeWoven(t: string) {
    exists k, i :: 0 <= k < |SCHEMES| && 0 <= i <= |t| && Woven(t[i..], SCHEMES, SCHEMES[k])
  }

  lemma OutputIsTrimmedRest(s: string)
    ensures SanitizeString(s) == Trim(DropSchemes(BeforeDeletions(s)))
  {
    if s == [] {
      CanonicaliseFixesSafe(s);
    }
  }

  lemma OutputHasScheme(s: string, k: nat)
    requires k < |SCHEMES|
    ensures Contains(SanitizeString(s), SCHEMES[k])
      <==> exists i :: 0 <= i <= |BeforeDeletions(s)| && Woven(BeforeDeletions(s)[i..], SCHEMES, SCHEMES[k])
  {
    var t := BeforeDeletions(s);
    OutputIsTrimmedRest(s);
    SchemesArePasses();
    DropSchemesIsDropAll(t);
    TrimKeepsSchemes(DropSchemes(t), SCHEMES[k]);
    LeftExactlyWhenWoven(t, SCHEMES, SCHEMES[k]);
  }

  /** Sanitising twice changes nothing exactly when, in the text before the deletions, no
      scheme stands woven with whole copies of schemes. */
  lemma SanitizeTwiceExactlyWhen(s: string)
    ensures SanitizeString(SanitizeString(s)) == SanitizeString(s) <==> !SchemeWoven(BeforeDeletions(s))
  {
    SanitizeTwice(s);
    forall k | 0 <= k < |SCHEMES|
      ensures Contains(SanitizeString(s), SCHEMES[k])
        <==> exists i :: 0 <= i <= |BeforeDeletions(s)| && Woven(BeforeDeletions(s)[i..], SCHEMES, SCHEMES[k])
    {
      OutputHasScheme(s, k);
    }
  }

  /** In particular it changes nothing when that text has no scheme at all. */
  lemma SanitizeTwiceWithoutSchemes(s: string)
    requires NoScheme(BeforeDeletions(s))
    ensures SanitizeString(SanitizeString(s)) == SanitizeString(s)
  {
    OutputIsTrimmedRest(s);
    DropSchemesFixes(BeforeDeletions(s));
    SanitizeTwice(s);
    forall k | 0 <= k < |SCHEMES| ensures !Contains(SanitizeString(s), SCHEMES[k]) {
      TrimKeepsSchemes(BeforeDeletions(s), SCHEMES[k]);
    }
  }
}
