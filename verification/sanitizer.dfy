/** The string half of the request sanitiser: tag stripping, entity decoding,
    escaping and the deletions that follow (sanitize.interceptor.ts). */
module Sanitizer {
  import opened Ascii

  // ---------------------------------------------------------------- tag stripping

  /** The index of the first `c` in `s`, or `|s|` when there is none. */
  function Find(s: string, c: char): (i: nat)
    ensures i <= |s|
    ensures forall k :: 0 <= k < i ==> s[k] != c
    ensures i < |s| ==> s[i] == c
  {
    if s == [] || s[0] == c then 0 else 1 + Find(s[1..], c)
  }

  /** `replace(/<[^>]*>/g, '')`: from the left, a `<` that is followed by some `>`
      disappears together with everything up to the first such `>`. */
  function StripTags(s: string): string {
    if s == [] then []
    else
      var close := Find(s, '>');
      if s[0] == '<' && close < |s| then StripTags(s[close + 1..])
      else [s[0]] + StripTags(s[1..])
  }

  ghost predicate TagFree(s: string) {
    forall i, j :: 0 <= i < j < |s| && s[i] == '<' ==> s[j] != '>'
  }

  lemma {:induction false} StripTagsOnlyDrops(s: string)
    ensures |StripTags(s)| <= |s|
    ensures forall c :: c in StripTags(s) ==> c in s
    decreases |s|
  {
    if s != [] {
      var close := Find(s, '>');
      if s[0] == '<' && close < |s| {
        StripTagsOnlyDrops(s[close + 1..]);
      } else {
        StripTagsOnlyDrops(s[1..]);
      }
    }
  }

  /** No `<` survives in front of a `>`: no tag is left. */
  lemma {:induction false} StripTagsLeavesNoTag(s: string)
    ensures TagFree(StripTags(s))
    decreases |s|
  {
    if s != [] {
      var close := Find(s, '>');
      if s[0] == '<' && close < |s| {
        StripTagsLeavesNoTag(s[close + 1..]);
      } else {
        var rest := StripTags(s[1..]);
        StripTagsLeavesNoTag(s[1..]);
        StripTagsOnlyDrops(s[1..]);
        forall i, j | 0 <= i < j < |[s[0]] + rest| && ([s[0]] + rest)[i] == '<'
          ensures ([s[0]] + rest)[j] != '>'
        {
          assert ([s[0]] + rest)[j] == rest[j - 1];
          if i == 0 {
            assert '>' !in s;
            assert rest[j - 1] in rest;
          } else {
            assert ([s[0]] + rest)[i] == rest[i - 1];
          }
        }
      }
    }
  }

  /** A string is left alone exactly when it holds no tag. */
  lemma {:induction false} StripTagsFixes(s: string)
    ensures StripTags(s) == s <==> TagFree(s)
    decreases |s|
  {
    StripTagsLeavesNoTag(s);
    if TagFree(s) && s != [] {
      var close := Find(s, '>');
      assert s[0] == '<' && close < |s| ==> 0 < close;
      assert TagFree(s[1..]) by {
        forall i, j | 0 <= i < j < |s[1..]| && s[1..][i] == '<' ensures s[1..][j] != '>' {
          assert s[i + 1] == '<' && s[1..][j] == s[j + 1];
        }
      }
      StripTagsFixes(s[1..]);
    }
  }

  lemma StripTagsIdempotent(s: string)
    ensures StripTags(StripTags(s)) == StripTags(s)
  {
    StripTagsLeavesNoTag(s);
    StripTagsFixes(StripTags(s));
  }

  // ---------------------------------------------------------------- entities

  /** What one character becomes under the five chained replacements. */
  function EscapeChar(c: char): string {
    match c
    case '&' => "&amp;"
    case '<' => "&lt;"
    case '>' => "&gt;"
    case '"' => "&quot;"
    case '\'' => "&#x27;"
    case _ => [c]
  }

  /** The simultaneous map: each character replaced on its own. */
  function Escape(s: string): string {
    if s == [] then [] else EscapeChar(s[0]) + Escape(s[1..])
  }

  /** `replace(/c/g, repl)` for a single character. */
  function ReplaceChar(s: string, c: char, repl: string): string {
    if s == [] then [] else (if s[0] == c then repl else [s[0]]) + ReplaceChar(s[1..], c, repl)
  }

  /** The escaping as it is written: five passes, the ampersand first. */
  function ChainedEscape(s: string): string {
    var amp := ReplaceChar(s, '&', "&amp;");
    var lt := ReplaceChar(amp, '<', "&lt;");
    var gt := ReplaceChar(lt, '>', "&gt;");
    var quot := ReplaceChar(gt, '"', "&quot;");
    ReplaceChar(quot, '\'', "&#x27;")
  }

  lemma {:induction false} ReplaceCharConcat(a: string, b: string, c: char, repl: string)
    ensures ReplaceChar(a + b, c, repl) == ReplaceChar(a, c, repl) + ReplaceChar(b, c, repl)
  {
    if a == [] {
      assert a + b == b;
    } else {
      assert (a + b)[1..] == a[1..] + b;
      ReplaceCharConcat(a[1..], b, c, repl);
    }
  }

  lemma {:induction false} ReplaceCharAbsent(s: string, c: char, repl: string)
    requires c !in s
    ensures ReplaceChar(s, c, repl) == s
  {
    if s != [] {
      ReplaceCharAbsent(s[1..], c, repl);
    }
  }

  lemma ReplaceCharSingle(c: char, d: char, repl: string)
    ensures ReplaceChar([c], d, repl) == if c == d then repl else [c]
  {
    assert ReplaceChar([c][1..], d, repl) == [];
  }

  /** The passes after the one that met the character find nothing more to do. */
  lemma LaterPasses(e: string)
    requires '<' !in e && '>' !in e && '"' !in e && '\'' !in e
    ensures ReplaceChar(e, '<', "&lt;") == ReplaceChar(e, '>', "&gt;") == ReplaceChar(e, '"', "&quot;")
         == ReplaceChar(e, '\'', "&#x27;") == e
  {
    ReplaceCharAbsent(e, '<', "&lt;");
    ReplaceCharAbsent(e, '>', "&gt;");
    ReplaceCharAbsent(e, '"', "&quot;");
    ReplaceCharAbsent(e, '\'', "&#x27;");
  }

  lemma ChainedEscapeChar(c: char)
    ensures ChainedEscape([c]) == EscapeChar(c)
  {
    var e := EscapeChar(c);
    LaterPasses(e);
    ReplaceCharSingle(c, '&', "&amp;");
    if c != '&' { ReplaceCharSingle(c, '<', "&lt;"); }
    if c != '&' && c != '<' { ReplaceCharSingle(c, '>', "&gt;"); }
    if c != '&' && c != '<' && c != '>' { ReplaceCharSingle(c, '"', "&quot;"); }
    if c != '&' && c != '<' && c != '>' && c != '"' { ReplaceCharSingle(c, '\'', "&#x27;"); }
  }

  lemma ChainedEscapeConcat(a: string, b: string)
    ensures ChainedEscape(a + b) == ChainedEscape(a) + ChainedEscape(b)
  {
    ReplaceCharConcat(a, b, '&', "&amp;");
    var a1, b1 := ReplaceChar(a, '&', "&amp;"), ReplaceChar(b, '&', "&amp;");
    ReplaceCharConcat(a1, b1, '<', "&lt;");
    var a2, b2 := ReplaceChar(a1, '<', "&lt;"), ReplaceChar(b1, '<', "&lt;");
    ReplaceCharConcat(a2, b2, '>', "&gt;");
    var a3, b3 := ReplaceChar(a2, '>', "&gt;"), ReplaceChar(b2, '>', "&gt;");
    ReplaceCharConcat(a3, b3, '"', "&quot;");
    ReplaceCharConcat(ReplaceChar(a3, '"', "&quot;"), ReplaceChar(b3, '"', "&quot;"), '\'', "&#x27;");
  }

  /** The order of the five passes does not matter in the end: the ampersands that a
      later pass introduces are never escaped again. */
  lemma {:induction false} ChainedEscapeIsEscape(s: string)
    ensures ChainedEscape(s) == Escape(s)
  {
    if s != [] {
      ChainedEscapeIsEscape(s[1..]);
      ChainedEscapeConcat([s[0]], s[1..]);
      ChainedEscapeChar(s[0]);
      assert [s[0]] + s[1..] == s;
    }
  }

  /** The entity table of the decoder; the first five are what the escaper emits. */
  const ENTITIES: seq<(string, char)> := [
    ("&amp;", '&'), ("&lt;", '<'), ("&gt;", '>'), ("&quot;", '"'), ("&#x27;", '\''),
    ("&#x2F;", '/'), ("&#39;", '\''), ("&apos;", '\'')]

  const EMITTED: seq<string> := ["&amp;", "&lt;", "&gt;", "&quot;", "&#x27;"]

  /** The entity `s` starts with: (its length, what it stands for), or length 0. */
  function EntityAt(s: string): (r: (nat, char))
    ensures r.0 <= |s|
    ensures r.0 > 0 ==> s[0] == '&' && r.0 >= 4
  {
    if "&amp;" <= s then (5, '&')
    else if "&lt;" <= s then (4, '<')
    else if "&gt;" <= s then (4, '>')
    else if "&quot;" <= s then (6, '"')
    else if "&#x27;" <= s then (6, '\'')
    else if "&#x2F;" <= s then (6, '/')
    else if "&#39;" <= s then (5, '\'')
    else if "&apos;" <= s then (6, '\'')
    else (0, ' ')
  }

  /** At most one alternative of the regular expression can match at a position, so
      the order of the alternatives does not matter. */
  lemma EntityAtReadsTheTable(s: string)
    ensures forall k :: 0 <= k < |ENTITIES| && ENTITIES[k].0 <= s ==> EntityAt(s) == (|ENTITIES[k].0|, ENTITIES[k].1)
    ensures EntityAt(s).0 > 0 ==> exists k :: 0 <= k < |ENTITIES| && ENTITIES[k].0 <= s
  {
    forall k | 0 <= k < |ENTITIES| && ENTITIES[k].0 <= s
      ensures EntityAt(s) == (|ENTITIES[k].0|, ENTITIES[k].1)
    {
      var e := ENTITIES[k].0;
      assert s[1] == e[1] && s[2] == e[2] && s[3] == e[3];
      assert |e| > 4 ==> s[4] == e[4];
    }
    if EntityAt(s).0 > 0 {
      assert ENTITIES[0].0 <= s || ENTITIES[1].0 <= s || ENTITIES[2].0 <= s || ENTITIES[3].0 <= s
          || ENTITIES[4].0 <= s || ENTITIES[5].0 <= s || ENTITIES[6].0 <= s || ENTITIES[7].0 <= s;
    }
  }

  /** One left-to-right pass: what a replacement produces is not looked at again. */
  function Decode(s: string): string {
    if s == [] then []
    else
      var (n, c) := EntityAt(s);
      if n > 0 then [c] + Decode(s[n..]) else [s[0]] + Decode(s[1..])
  }

  lemma EntityAtOfEscapeChar(c: char, rest: string)
    ensures EscapeChar(c)[0] == '&' ==> EntityAt(EscapeChar(c) + rest) == (|EscapeChar(c)|, c)
    ensures EscapeChar(c)[0] != '&' ==> EscapeChar(c) == [c] && EntityAt(EscapeChar(c) + rest).0 == 0
  {
    var e := EscapeChar(c);
    var t := e + rest;
    if e[0] == '&' {
      assert e <= t;
      var k := if c == '&' then 0 else if c == '<' then 1 else if c == '>' then 2 else if c == '"' then 3 else 4;
      assert ENTITIES[k] == (e, c);
      EntityAtReadsTheTable(t);
    }
  }

  lemma DecodeOfEscapeChar(c: char, rest: string)
    ensures Decode(EscapeChar(c) + rest) == [c] + Decode(rest)
  {
    EntityAtOfEscapeChar(c, rest);
    assert (EscapeChar(c) + rest)[|EscapeChar(c)|..] == rest;
  }

  /** Decoding undoes escaping, on every string. */
  lemma {:induction false} DecodeEscape(s: string)
    ensures Decode(Escape(s)) == s
  {
    if s != [] {
      DecodeEscape(s[1..]);
      DecodeOfEscapeChar(s[0], Escape(s[1..]));
    }
  }

  // ---------------------------------------------------------------- safe strings

  /** The length of the emitted entity `s` starts with, or 0. */
  function EmittedAt(s: string): (n: nat)
    ensures n <= |s|
    ensures n > 0 <==> exists k :: 0 <= k < |EMITTED| && EMITTED[k] <= s
  {
    var n := if "&amp;" <= s then 5 else if "&lt;" <= s then 4 else if "&gt;" <= s then 4
             else if "&quot;" <= s then 6 else if "&#x27;" <= s then 6 else 0;
    assert n > 0 ==> EMITTED[0] <= s || EMITTED[1] <= s || EMITTED[2] <= s || EMITTED[3] <= s || EMITTED[4] <= s;
    n
  }

  predicate Raw(c: char) { c == '<' || c == '>' || c == '"' || c == '\'' }

  /** No raw markup character, and every ampersand begins an emitted entity. */
  ghost predicate Safe(s: string) {
    forall i :: 0 <= i < |s| ==> !Raw(s[i]) && (s[i] == '&' ==> EmittedAt(s[i..]) > 0)
  }

  lemma SafeTail(s: string, k: nat)
    requires Safe(s) && k <= |s|
    ensures Safe(s[k..])
  {
    forall i | 0 <= i < |s[k..]|
      ensures !Raw(s[k..][i]) && (s[k..][i] == '&' ==> EmittedAt(s[k..][i..]) > 0)
    {
      assert s[k..][i] == s[k + i] && s[k..][i..] == s[k + i..];
    }
  }

  /** Emitted entities hold one ampersand, at the front, one semicolon, at the end,
      no colon, and neither white space nor a null character. */
  lemma EmittedShape(s: string)
    requires EmittedAt(s) > 0
    ensures s[0] == '&' && s[EmittedAt(s) - 1] == ';'
    ensures forall i :: 0 < i < EmittedAt(s) ==> s[i] != '&'
    ensures forall i :: 0 <= i < EmittedAt(s) ==> s[i] != ':' && s[i] != '\0' && !White(s[i]) && !Raw(s[i])
    ensures forall i :: 0 <= i < EmittedAt(s) - 1 ==> s[i] != ';'
  {
  }

  lemma EntityInFront(e: string, rest: string)
    requires e in EMITTED
    ensures EmittedAt(e + rest) == |e|
  {
    var t := e + rest;
    var k :| 0 <= k < |EMITTED| && EMITTED[k] == e;
    assert EMITTED[k] <= t;
    assert t[1] == e[1] && t[2] == e[2] && t[3] == e[3];
  }

  /** Safe text stays safe behind a piece that is safe by itself. */
  lemma SafeBehind(e: string, rest: string)
    requires Safe(rest)
    requires forall i | 0 <= i < |e| :: !Raw((e + rest)[i]) && ((e + rest)[i] == '&' ==> EmittedAt((e + rest)[i..]) > 0)
    ensures Safe(e + rest)
  {
    var t := e + rest;
    forall i | |e| <= i < |t| ensures !Raw(t[i]) && (t[i] == '&' ==> EmittedAt(t[i..]) > 0) {
      assert t[i] == rest[i - |e|] && t[i..] == rest[i - |e|..];
    }
  }

  lemma EntityIsSafe(e: string, rest: string)
    requires e in EMITTED
    ensures forall i | 0 <= i < |e| :: !Raw((e + rest)[i]) && ((e + rest)[i] == '&' ==> EmittedAt((e + rest)[i..]) > 0)
  {
    var t := e + rest;
    EntityInFront(e, rest);
    EmittedShape(t);
    assert t[0..] == t;
  }

  lemma SafeCons(e: string, rest: string)
    requires Safe(rest)
    requires (|e| == 1 && !Raw(e[0]) && e[0] != '&') || (|e| > 0 && e in EMITTED)
    ensures Safe(e + rest)
  {
    if e in EMITTED {
      EntityIsSafe(e, rest);
    }
    SafeBehind(e, rest);
  }

  lemma {:induction false} EscapeIsSafe(s: string)
    ensures Safe(Escape(s))
  {
    if s != [] {
      EscapeIsSafe(s[1..]);
      assert EscapeChar(s[0]) in EMITTED || EscapeChar(s[0]) == [s[0]] by {
        assert EMITTED[0] in EMITTED && EMITTED[1] in EMITTED && EMITTED[2] in EMITTED
            && EMITTED[3] in EMITTED && EMITTED[4] in EMITTED;
      }
      SafeCons(EscapeChar(s[0]), Escape(s[1..]));
    }
  }

  /** On safe strings escaping undoes decoding: they are exactly the escaper's image. */
  lemma {:induction false} EscapeDecode(t: string)
    requires Safe(t)
    ensures Escape(Decode(t)) == t
    decreases |t|
  {
    if t != [] {
      assert t[0..] == t;
      var n := EmittedAt(t);
      if n > 0 {
        EmittedShape(t);
        SafeTail(t, n);
        EscapeDecode(t[n..]);
        assert EntityAt(t).0 == n;
        var c := EntityAt(t).1;
        assert EscapeChar(c) == t[..n];
        assert Decode(t) == [c] + Decode(t[n..]);
        assert ([c] + Decode(t[n..]))[1..] == Decode(t[n..]);
      } else {
        SafeTail(t, 1);
        EscapeDecode(t[1..]);
        assert t[0] != '&' && EntityAt(t).0 == 0;
        assert Decode(t) == [t[0]] + Decode(t[1..]);
        assert ([t[0]] + Decode(t[1..]))[1..] == Decode(t[1..]);
      }
    }
  }

  lemma SafeIsTheEscapersImage(t: string)
    ensures Safe(t) <==> exists s :: t == Escape(s)
  {
    if Safe(t) {
      EscapeDecode(t);
    }
    forall s | t == Escape(s) ensures Safe(t) {
      EscapeIsSafe(s);
    }
  }

  // ---------------------------------------------------------------- deletions

  /** `s` starts with `p`, ASCII case ignored; `p` is written in lower case. */
  predicate StartsWith(s: string, p: string) {
    |p| <= |s| && forall i :: 0 <= i < |p| ==> Lower(s[i]) == p[i]
  }

  /** `replace(/p/gi, '')` for a literal p. */
  function DeleteAll(s: string, p: string): (r: string)
    requires p != []
    decreases |s|
  {
    if s == [] then []
    else if StartsWith(s, p) then DeleteAll(s[|p|..], p)
    else [s[0]] + DeleteAll(s[1..], p)
  }

  ghost predicate Contains(s: string, p: string) {
    exists i :: 0 <= i <= |s| && StartsWith(s[i..], p)
  }

  lemma {:induction false} DeleteAllFixes(s: string, p: string)
    requires p != []
    ensures |DeleteAll(s, p)| <= |s|
    ensures Contains(s, p) ==> |DeleteAll(s, p)| < |s|
    ensures !Contains(s, p) ==> DeleteAll(s, p) == s
    decreases |s|
  {
    if s != [] {
      assert s[0..] == s;
      if StartsWith(s, p) {
        DeleteAllFixes(s[|p|..], p);
      } else {
        DeleteAllFixes(s[1..], p);
        if Contains(s, p) {
          var i :| 0 <= i <= |s| && StartsWith(s[i..], p);
          assert s[i..] == s[1..][i - 1..];
        }
        if Contains(s[1..], p) {
          var i :| 0 <= i <= |s[1..]| && StartsWith(s[1..][i..], p);
          assert s[1..][i..] == s[i + 1..];
        }
      }
    }
  }

  /** A pattern the deletions use: it ends in a colon and never meets an entity. */
  predicate SchemeLike(p: string) {
    p != [] && p[|p| - 1] == ':' && '&' !in p && ';' !in p
  }

  const SCHEMES: seq<string> := ["javascript:", "data:", "vbscript:"]

  /** No match begins inside an emitted entity: it would have to run over the
      semicolon, or find its colon before it. */
  lemma NoMatchInsideEntity(s: string, p: string, i: nat)
    requires EmittedAt(s) > 0 && SchemeLike(p) && i < EmittedAt(s)
    ensures !StartsWith(s[i..], p)
  {
    EmittedShape(s);
    var semi := EmittedAt(s) - 1;
    if |p| <= |s| - i {
      var j := if i + |p| <= semi then |p| - 1 else semi - i;
      assert s[i..][j] == s[i + j];
      assert Lower(s[i..][j]) != p[j];
    }
  }

  /** Nothing is deleted where no match begins. */
  lemma {:induction false} DeleteAllSkips(a: string, b: string, p: string)
    requires p != [] && forall i | 0 <= i < |a| :: !StartsWith((a + b)[i..], p)
    ensures DeleteAll(a + b, p) == a + DeleteAll(b, p)
    decreases |a|
  {
    if a == [] {
      assert a + b == b;
    } else {
      assert (a + b)[0..] == a + b;
      assert (a + b)[1..] == a[1..] + b;
      forall i | 0 <= i < |a[1..]| ensures !StartsWith((a[1..] + b)[i..], p) {
        assert (a[1..] + b)[i..] == (a + b)[i + 1..];
      }
      DeleteAllSkips(a[1..], b, p);
    }
  }

  lemma DeleteAllKeepsEntity(s: string, p: string)
    requires EmittedAt(s) > 0 && SchemeLike(p)
    ensures DeleteAll(s, p) == s[..EmittedAt(s)] + DeleteAll(s[EmittedAt(s)..], p)
  {
    var a, b := s[..EmittedAt(s)], s[EmittedAt(s)..];
    assert s == a + b;
    forall i | 0 <= i < |a| ensures !StartsWith((a + b)[i..], p) {
      NoMatchInsideEntity(s, p, i);
    }
    DeleteAllSkips(a, b, p);
  }

  lemma EmittedPrefix(s: string)
    requires EmittedAt(s) > 0
    ensures s[..EmittedAt(s)] in EMITTED
  {
    var k :| 0 <= k < |EMITTED| && EMITTED[k] <= s;
    var e := EMITTED[k];
    assert s[1] == e[1] && s[2] == e[2] && s[3] == e[3];
    assert |e| == EmittedAt(s) && s[..|e|] == e;
  }

  lemma {:induction false} DeleteAllSafe(s: string, p: string)
    requires Safe(s) && SchemeLike(p)
    ensures Safe(DeleteAll(s, p))
    decreases |s|
  {
    if s != [] {
      assert s[0..] == s;
      var n := EmittedAt(s);
      if n > 0 {
        SafeTail(s, n);
        DeleteAllSafe(s[n..], p);
        DeleteAllKeepsEntity(s, p);
        EmittedPrefix(s);
        SafeCons(s[..n], DeleteAll(s[n..], p));
      } else if StartsWith(s, p) {
        SafeTail(s, |p|);
        DeleteAllSafe(s[|p|..], p);
      } else {
        SafeTail(s, 1);
        DeleteAllSafe(s[1..], p);
        SafeCons([s[0]], DeleteAll(s[1..], p));
      }
    }
  }

  function RemoveChar(s: string, c: char): string {
    if s == [] then [] else if s[0] == c then RemoveChar(s[1..], c) else [s[0]] + RemoveChar(s[1..], c)
  }

  lemma {:induction false} RemoveCharFixes(s: string, c: char)
    ensures c !in RemoveChar(s, c)
    ensures |RemoveChar(s, c)| <= |s|
    ensures c in s ==> |RemoveChar(s, c)| < |s|
    ensures c !in s ==> RemoveChar(s, c) == s
    ensures forall d :: d in RemoveChar(s, c) ==> d in s
  {
    if s != [] {
      RemoveCharFixes(s[1..], c);
    }
  }

  lemma {:induction false} RemoveCharSkips(a: string, b: string, c: char)
    requires c !in a
    ensures RemoveChar(a + b, c) == a + RemoveChar(b, c)
  {
    if a == [] {
      assert a + b == b;
    } else {
      RemoveCharSkips(a[1..], b, c);
      assert (a + b)[1..] == a[1..] + b;
    }
  }

  lemma RemoveNullKeepsEntity(s: string)
    requires EmittedAt(s) > 0
    ensures RemoveChar(s, '\0') == s[..EmittedAt(s)] + RemoveChar(s[EmittedAt(s)..], '\0')
  {
    EmittedShape(s);
    var a, b := s[..EmittedAt(s)], s[EmittedAt(s)..];
    assert s == a + b;
    RemoveCharSkips(a, b, '\0');
  }

  lemma {:induction false} RemoveNullSafe(s: string)
    requires Safe(s)
    ensures Safe(RemoveChar(s, '\0'))
    decreases |s|
  {
    if s != [] {
      assert s[0..] == s;
      var n := EmittedAt(s);
      if n > 0 {
        SafeTail(s, n);
        RemoveNullSafe(s[n..]);
        RemoveNullKeepsEntity(s);
        EmittedPrefix(s);
        SafeCons(s[..n], RemoveChar(s[n..], '\0'));
      } else {
        SafeTail(s, 1);
        RemoveNullSafe(s[1..]);
        if s[0] != '\0' {
          SafeCons([s[0]], RemoveChar(s[1..], '\0'));
        }
      }
    }
  }

  // ---------------------------------------------------------------- trimming

  /** The characters `String.prototype.trim` removes: the WhiteSpace and LineTerminator
      productions of ECMA-262, sections 12.2 and 12.3. */
  predicate White(c: char) {
    || '\U{0009}' <= c <= '\U{000D}' || c == ' ' || c == '\U{00A0}' || c == '\U{1680}'
    || '\U{2000}' <= c <= '\U{200A}' || c == '\U{2028}' || c == '\U{2029}' || c == '\U{202F}'
    || c == '\U{205F}' || c == '\U{3000}' || c == '\U{FEFF}'
  }

  function TrimLeft(s: string): string {
    if s != [] && White(s[0]) then TrimLeft(s[1..]) else s
  }

  function TrimRight(s: string): string {
    if s != [] && White(s[|s| - 1]) then TrimRight(s[..|s| - 1]) else s
  }

  function Trim(s: string): string {
    TrimRight(TrimLeft(s))
  }

  predicate Trimmed(s: string) {
    s == [] || (!White(s[0]) && !White(s[|s| - 1]))
  }

  lemma {:induction false} TrimLeftDrops(s: string)
    ensures exists k :: 0 <= k <= |s| && TrimLeft(s) == s[k..]
    ensures TrimLeft(s) != [] ==> !White(TrimLeft(s)[0])
    ensures s != [] && !White(s[0]) ==> TrimLeft(s) == s
    ensures s != [] && White(s[0]) ==> |TrimLeft(s)| < |s|
    ensures |TrimLeft(s)| <= |s|
  {
    if s != [] && White(s[0]) {
      TrimLeftDrops(s[1..]);
      var k :| 0 <= k <= |s[1..]| && TrimLeft(s[1..]) == s[1..][k..];
      assert s[1..][k..] == s[k + 1..];
    } else {
      assert s == s[0..];
    }
  }

  lemma {:induction false} TrimRightDrops(s: string)
    ensures exists k :: 0 <= k <= |s| && TrimRight(s) == s[..k] && (forall i :: k <= i < |s| ==> White(s[i]))
    ensures TrimRight(s) != [] ==> !White(TrimRight(s)[|TrimRight(s)| - 1])
    ensures s != [] && White(s[|s| - 1]) ==> |TrimRight(s)| < |s|
    ensures |TrimRight(s)| <= |s|
  {
    if s != [] && White(s[|s| - 1]) {
      var t := s[..|s| - 1];
      TrimRightDrops(t);
      var k :| 0 <= k <= |t| && TrimRight(t) == t[..k] && (forall i :: k <= i < |t| ==> White(t[i]));
      assert t[..k] == s[..k];
      forall i | k <= i < |s| ensures White(s[i]) {
        if i < |t| { assert t[i] == s[i]; }
      }
    } else {
      assert s == s[..|s|];
    }
  }

  lemma TrimCuts(s: string) returns (k: nat, m: nat)
    ensures k <= |s| && m <= |s| - k && Trim(s) == s[k..][..m]
  {
    TrimLeftDrops(s);
    TrimRightDrops(TrimLeft(s));
    k :| 0 <= k <= |s| && TrimLeft(s) == s[k..];
    var t := TrimLeft(s);
    m :| 0 <= m <= |t| && TrimRight(t) == t[..m] && (forall i :: m <= i < |t| ==> White(t[i]));
  }

  lemma TrimTrims(s: string)
    ensures Trimmed(Trim(s))
    ensures Trimmed(s) ==> Trim(s) == s
  {
    TrimLeftDrops(s);
    TrimRightDrops(TrimLeft(s));
  }

  lemma TrimFixes(s: string)
    ensures Trimmed(Trim(s))
    ensures |Trim(s)| <= |s|
    ensures Trim(s) == s <==> Trimmed(s)
    ensures forall c :: c in Trim(s) ==> c in s
  {
    var k, m := TrimCuts(s);
    TrimTrims(s);
    forall c | c in s[k..][..m] ensures c in s {
    }
  }

  /** Cutting white space off the end never cuts an entity in two. */
  lemma SafeTake(s: string, k: nat)
    requires Safe(s) && k <= |s| && forall i :: k <= i < |s| ==> White(s[i])
    ensures Safe(s[..k])
  {
    forall i | 0 <= i < k
      ensures !Raw(s[..k][i]) && (s[..k][i] == '&' ==> EmittedAt(s[..k][i..]) > 0)
    {
      if s[i] == '&' {
        var n := EmittedAt(s[i..]);
        EmittedShape(s[i..]);
        assert s[i..][n - 1] == s[i + n - 1];
        assert i + n <= k;
        assert s[..k][i..][..n] == s[i..][..n];
        EmittedPrefix(s[i..]);
        var e :| 0 <= e < |EMITTED| && EMITTED[e] == s[i..][..n];
        assert EMITTED[e] <= s[..k][i..];
      }
    }
  }

  lemma TrimSafe(s: string)
    requires Safe(s)
    ensures Safe(Trim(s))
  {
    TrimLeftDrops(s);
    var k :| 0 <= k <= |s| && TrimLeft(s) == s[k..];
    SafeTail(s, k);
    TrimRightDrops(TrimLeft(s));
    var t := TrimLeft(s);
    var m :| 0 <= m <= |t| && TrimRight(t) == t[..m] && (forall i :: m <= i < |t| ==> White(t[i]));
    SafeTake(t, m);
  }

  // ---------------------------------------------------------------- the whole pipeline

  function Canonicalise(s: string): string {
    ChainedEscape(Decode(StripTags(s)))
  }

  function DropSchemes(s: string): string {
    DeleteAll(DeleteAll(DeleteAll(s, SCHEMES[0]), SCHEMES[1]), SCHEMES[2])
  }

  function SanitizeString(input: string): string {
    if input == [] then input
    else Trim(DropSchemes(RemoveChar(Canonicalise(input), '\0')))
  }

  lemma CanonicaliseIsSafe(s: string)
    ensures Safe(Canonicalise(s))
  {
    ChainedEscapeIsEscape(Decode(StripTags(s)));
    EscapeIsSafe(Decode(StripTags(s)));
  }

  /** Safe strings pass through strip, decode and escape unchanged ... */
  lemma CanonicaliseFixesSafe(t: string)
    requires Safe(t)
    ensures Canonicalise(t) == t
  {
    StripTagsFixes(t);
    EscapeDecode(t);
    ChainedEscapeIsEscape(Decode(t));
  }

  /** ... so the three passes together are idempotent, whatever the input. */
  lemma CanonicaliseIdempotent(s: string)
    ensures Canonicalise(Canonicalise(s)) == Canonicalise(s)
  {
    CanonicaliseIsSafe(s);
    CanonicaliseFixesSafe(Canonicalise(s));
  }

  lemma DropSchemesSafe(s: string)
    requires Safe(s)
    ensures Safe(DropSchemes(s))
  {
    DeleteAllSafe(s, SCHEMES[0]);
    DeleteAllSafe(DeleteAll(s, SCHEMES[0]), SCHEMES[1]);
    DeleteAllSafe(DeleteAll(DeleteAll(s, SCHEMES[0]), SCHEMES[1]), SCHEMES[2]);
  }

  ghost predicate NoScheme(s: string) {
    forall k :: 0 <= k < |SCHEMES| ==> !Contains(s, SCHEMES[k])
  }

  lemma DropSchemesFixes(s: string)
    ensures |DropSchemes(s)| <= |s|
    ensures DropSchemes(s) == s <==> NoScheme(s)
    ensures !NoScheme(s) ==> |DropSchemes(s)| < |s|
  {
    var s0 := DeleteAll(s, SCHEMES[0]);
    var s1 := DeleteAll(s0, SCHEMES[1]);
    DeleteAllFixes(s, SCHEMES[0]);
    DeleteAllFixes(s0, SCHEMES[1]);
    DeleteAllFixes(s1, SCHEMES[2]);
  }

  lemma {:induction false} DeleteAllOnlyDrops(s: string, p: string)
    requires p != []
    ensures forall c :: c in DeleteAll(s, p) ==> c in s
    decreases |s|
  {
    if s != [] {
      if StartsWith(s, p) {
        DeleteAllOnlyDrops(s[|p|..], p);
      } else {
        DeleteAllOnlyDrops(s[1..], p);
      }
    }
  }

  /** Whatever comes in, what goes out holds no raw markup character and no null
      character, its ampersands all begin emitted entities, and its ends are trimmed. */
  lemma SanitizeStringOutput(input: string)
    ensures Safe(SanitizeString(input))
    ensures '\0' !in SanitizeString(input)
    ensures Trimmed(SanitizeString(input))
  {
    if input != [] {
      var c := Canonicalise(input);
      var n := RemoveChar(c, '\0');
      CanonicaliseIsSafe(input);
      RemoveNullSafe(c);
      RemoveCharFixes(c, '\0');
      DropSchemesSafe(n);
      TrimSafe(DropSchemes(n));
      TrimFixes(DropSchemes(n));
      DeleteAllOnlyDrops(n, SCHEMES[0]);
      DeleteAllOnlyDrops(DeleteAll(n, SCHEMES[0]), SCHEMES[1]);
      DeleteAllOnlyDrops(DeleteAll(DeleteAll(n, SCHEMES[0]), SCHEMES[1]), SCHEMES[2]);
    }
  }

  /** Exactly which strings the sanitiser leaves alone. */
  lemma SanitizeStringFixes(t: string)
    ensures SanitizeString(t) == t <==> Safe(t) && '\0' !in t && NoScheme(t) && Trimmed(t)
  {
    SanitizeStringOutput(t);
    if Safe(t) && t != [] && '\0' !in t {
      CanonicaliseFixesSafe(t);
      RemoveCharFixes(t, '\0');
      DropSchemesFixes(t);
      TrimFixes(t);
      TrimFixes(DropSchemes(t));
    }
    if t == [] {
      forall k | 0 <= k < |SCHEMES| ensures !Contains(t, SCHEMES[k]) { }
    }
  }

  /** Sanitising twice changes nothing exactly when the first pass left no scheme. */
  lemma SanitizeTwice(s: string)
    ensures SanitizeString(SanitizeString(s)) == SanitizeString(s) <==> NoScheme(SanitizeString(s))
  {
    SanitizeStringOutput(s);
    SanitizeStringFixes(SanitizeString(s));
  }

  /** The tags an input carries never reach the output. */
  lemma TagsDoNotMatter(s: string)
    ensures SanitizeString(StripTags(s)) == SanitizeString(s)
  {
    StripTagsIdempotent(s);
  }

  lemma AbsentHead(s: string, p: string)
    requires p != [] && forall i :: 0 <= i < |s| ==> Lower(s[i]) != p[0]
    ensures !Contains(s, p)
  {
    forall i | 0 <= i <= |s| ensures !StartsWith(s[i..], p) {
      assert |s[i..]| > 0 ==> s[i..][0] == s[i];
    }
  }

  lemma NoStartWithin(p: string)
    requires |p| >= 2
    ensures !Contains(p[2..], p)
  {
    forall i | 0 <= i <= |p[2..]| ensures !StartsWith(p[2..][i..], p) {
    }
  }

  /** A scheme written inside itself: the deletion joins the two halves. */
  lemma DeleteNested(p: string)
    requires |p| >= 3 && p[1] != p[0] && p[2] != p[0]
    requires forall i :: 0 <= i < |p| ==> Lower(p[i]) == p[i]
    ensures DeleteAll(p[..2] + (p + p[2..]), p) == p
  {
    var tail := p + p[2..];
    DeleteAllSkipsTwo(p, tail);
    assert tail[|p|..] == p[2..] && StartsWith(tail, p);
    NoStartWithin(p);
    DeleteAllFixes(p[2..], p);
    assert p[..2] + p[2..] == p;
  }

  lemma DeleteAllSkipsTwo(p: string, tail: string)
    requires |p| >= 3 && p[1] != p[0] && p[2] != p[0] && tail != [] && tail[0] == p[0]
    requires forall i :: 0 <= i < |p| ==> Lower(p[i]) == p[i]
    ensures DeleteAll(p[..2] + tail, p) == p[..2] + DeleteAll(tail, p)
  {
    var s := p[..2] + tail;
    assert s[0] == p[0] && s[1] == p[1] && s[2] == p[0];
    forall i | 0 <= i < 2 ensures !StartsWith(s[i..], p) {
      assert i == 0 ==> Lower(s[i..][2]) != p[2];
      assert i == 1 ==> Lower(s[i..][0]) != p[0];
    }
    DeleteAllSkips(p[..2], tail, p);
  }

  /** Markup-free text that only the deletions can change. */
  ghost predicate Plain(s: string) {
    forall i :: 0 <= i < |s| ==> !Raw(s[i]) && s[i] != '&' && s[i] != '\0' && !White(s[i])
  }

  lemma SanitizePlain(s: string)
    requires s != [] && Plain(s) && Plain(DropSchemes(s))
    ensures SanitizeString(s) == DropSchemes(s)
  {
    CanonicaliseFixesSafe(s);
    RemoveCharFixes(s, '\0');
    TrimFixes(DropSchemes(s));
  }

  lemma DropNested(p: string, s: string)
    requires |p| >= 3 && p[1] != p[0] && p[2] != p[0] && p == SCHEMES[1]
    requires forall i :: 0 <= i < |p| ==> Lower(p[i]) == p[i] && p[i] != 'j' && p[i] != 'v'
    requires s == p[..2] + (p + p[2..])
    ensures DropSchemes(s) == p
  {
    AbsentHead(s, SCHEMES[0]);
    DeleteAllFixes(s, SCHEMES[0]);
    DeleteNested(p);
    AbsentHead(p, SCHEMES[2]);
    DeleteAllFixes(p, SCHEMES[2]);
  }

  lemma NestedIsPlain(p: string, s: string)
    requires p == SCHEMES[1] && s == p[..2] + (p + p[2..])
    ensures s != [] && Plain(s) && Plain(p) && Contains(p, p)
  {
    assert p[0..] == p && StartsWith(p[0..], p);
  }

  /** So one pass can leave a scheme behind, which a second pass would remove. */
  lemma SanitizeTwiceCanDiffer() returns (s: string)
    ensures SanitizeString(SanitizeString(s)) != SanitizeString(s)
  {
    var p := SCHEMES[1];
    s := p[..2] + (p + p[2..]);
    NestedIsPlain(p, s);
    DropNested(p, s);
    SanitizePlain(s);
    SanitizeTwice(s);
  }
}
