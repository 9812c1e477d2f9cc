/** What the sanitiser makes of a text, said without its own functions (sanitize.interceptor.ts):
    which characters each pass takes out and which it leaves. */
module SanitizerMeaning {
  import opened Sanitizer

  // ---------------------------------------------------------------- tags

  /** Some text, and a tag with what stands between its brackets. */
  datatype Piece = Piece(text: string, tag: string)

  /** The bracket that opens a tag is the first one in its piece, and what it encloses ends
      at the first closing bracket; behind the last tag there is none. */
  ghost predicate Tagged(pieces: seq<Piece>, tail: string) {
    TagFree(tail) && forall i | 0 <= i < |pieces| :: '<' !in pieces[i].text && '>' !in pieces[i].tag
  }

  function Written(pieces: seq<Piece>, tail: string): string {
    if pieces == [] then tail
    else pieces[0].text + ("<" + pieces[0].tag + ">" + Written(pieces[1..], tail))
  }

  function Untagged(pieces: seq<Piece>, tail: string): string {
    if pieces == [] then tail else pieces[0].text + Untagged(pieces[1..], tail)
  }

  lemma FirstClosing(b: string, c: string)
    requires '>' !in b
    ensures Find("<" + b + ">" + c, '>') == |b| + 1
  {
    var s := "<" + b + ">" + c;
    assert s[|b| + 1] == '>';
    forall k | 0 <= k <= |b| ensures s[k] != '>' {
      assert k > 0 ==> s[k] == b[k - 1];
    }
  }

  lemma TagInFront(b: string, c: string)
    requires '>' !in b
    ensures StripTags("<" + b + ">" + c) == StripTags(c)
  {
    var s := "<" + b + ">" + c;
    FirstClosing(b, c);
    assert s[|b| + 2..] == c;
  }

  /** A tag is cut out, and nothing else. */
  lemma {:induction false} TagIsCutOut(a: string, b: string, c: string)
    requires '<' !in a && '>' !in b
    ensures StripTags(a + ("<" + b + ">" + c)) == a + StripTags(c)
    decreases |a|
  {
    var s := "<" + b + ">" + c;
    if a == [] {
      TagInFront(b, c);
      assert a + s == s;
    } else {
      TagIsCutOut(a[1..], b, c);
      StripTagsPasses(a[0], a[1..] + s);
      assert a + s == [a[0]] + (a[1..] + s);
    }
  }

  lemma StripTagsPasses(c: char, s: string)
    requires c != '<'
    ensures StripTags([c] + s) == [c] + StripTags(s)
  {
    assert ([c] + s)[1..] == s;
  }

  /** Tag stripping leaves exactly what stands outside the tags. */
  lemma {:induction false} StripTagsLeavesTheRest(pieces: seq<Piece>, tail: string)
    requires Tagged(pieces, tail)
    ensures StripTags(Written(pieces, tail)) == Untagged(pieces, tail)
  {
    if pieces == [] {
      StripTagsFixes(tail);
    } else {
      StripTagsLeavesTheRest(pieces[1..], tail);
      TagIsCutOut(pieces[0].text, pieces[0].tag, Written(pieces[1..], tail));
    }
  }

  /** Every text can be read so. */
  lemma {:induction false} EveryTextIsWritten(s: string) returns (pieces: seq<Piece>, tail: string)
    ensures Tagged(pieces, tail) && Written(pieces, tail) == s
    decreases |s|
  {
    var found, first, rest := FirstTag(s);
    if found {
      var more;
      more, tail := EveryTextIsWritten(rest);
      pieces := [first] + more;
      assert pieces[1..] == more;
    } else {
      pieces, tail := [], s;
    }
  }

  /** The first tag of a text, with what stands before and behind it. */
  lemma FirstTag(s: string) returns (found: bool, first: Piece, rest: string)
    ensures !found ==> TagFree(s)
    ensures found ==> '<' !in first.text && '>' !in first.tag
    ensures found ==> s == first.text + ("<" + first.tag + ">" + rest) && |rest| < |s|
  {
    var open := Find(s, '<');
    var close := Find(s[open..], '>');
    found := open < |s| && close < |s[open..]|;
    first, rest := Piece("", ""), "";
    if found {
      var end := open + close;
      forall k | open <= k < end ensures s[k] != '>' {
        assert s[k] == s[open..][k - open];
      }
      assert s[end] == s[open..][close];
      OnePiece(s, open, end);
      first, rest := Piece(s[..open], s[open + 1..end]), s[end + 1..];
    } else {
      forall i, j | 0 <= i < j < |s| && s[i] == '<' ensures s[j] != '>' {
        assert s[j] == s[open..][j - open];
      }
    }
  }

  lemma OnePiece(s: string, open: nat, end: nat)
    requires open < end < |s| && s[open] == '<' && s[end] == '>'
    requires forall k | 0 <= k < open :: s[k] != '<'
    requires forall k | open <= k < end :: s[k] != '>'
    ensures '<' !in s[..open] && '>' !in s[open + 1..end]
    ensures s == s[..open] + ("<" + s[open + 1..end] + ">" + s[end + 1..])
  {
    var tag := s[open + 1..end];
    forall k | 0 <= k < |tag| ensures tag[k] != '>' {
      assert tag[k] == s[open + 1 + k];
    }
  }

  // ---------------------------------------------------------------- entities

  /** No entity of the table begins here. */
  ghost predicate NoEntity(s: string) {
    forall k | 0 <= k < |ENTITIES| :: !(ENTITIES[k].0 <= s)
  }

  /** An entity becomes its character ... */
  lemma EntityIsDecoded(k: nat, rest: string)
    requires k < |ENTITIES|
    ensures Decode(ENTITIES[k].0 + rest) == [ENTITIES[k].1] + Decode(rest)
  {
    var e := ENTITIES[k].0;
    EntityAtReadsTheTable(e + rest);
    assert e <= e + rest && e != [];
    assert (e + rest)[|e|..] == rest;
  }

  /** ... and a character that begins none stays. */
  lemma OtherCharacterStays(c: char, rest: string)
    requires NoEntity([c] + rest)
    ensures Decode([c] + rest) == [c] + Decode(rest)
  {
    EntityAtReadsTheTable([c] + rest);
    assert ([c] + rest)[1..] == rest;
  }

  // ---------------------------------------------------------------- null characters

  /** Only the null characters go. */
  lemma {:induction false} OnlyNullsGo(a: string, b: string)
    requires '\0' !in a
    ensures RemoveChar(a, '\0') == a && RemoveChar(a + ("\0" + b), '\0') == a + RemoveChar(b, '\0')
  {
    if a == [] {
      assert a + ("\0" + b) == "\0" + b && ("\0" + b)[1..] == b;
    } else {
      assert (a + ("\0" + b))[1..] == a[1..] + ("\0" + b);
      OnlyNullsGo(a[1..], b);
    }
  }

  // ---------------------------------------------------------------- schemes

  /** A scheme goes, whatever the case of its letters, and what stands in front of the first
      one stays. */
  lemma FirstSchemeGoes(a: string, copy: string, b: string, p: string)
    requires p != [] && |copy| == |p| && StartsWith(copy, p)
    requires forall i | 0 <= i < |a| :: !StartsWith((a + (copy + b))[i..], p)
    ensures DeleteAll(a + (copy + b), p) == a + DeleteAll(b, p)
  {
    DeleteAllSkips(a, copy + b, p);
    assert StartsWith(copy + b, p) && (copy + b)[|p|..] == b;
  }

  // ---------------------------------------------------------------- white space

  lemma {:induction false} LeadingWhiteGoes(a: string, b: string)
    requires (forall i | 0 <= i < |a| :: White(a[i])) && (b == [] || !White(b[0]))
    ensures TrimLeft(a + b) == b
  {
    if a == [] {
      assert a + b == b;
    } else {
      assert (a + b)[1..] == a[1..] + b;
      LeadingWhiteGoes(a[1..], b);
    }
  }

  lemma {:induction false} TrailingWhiteGoes(b: string, c: string)
    requires (forall i | 0 <= i < |c| :: White(c[i])) && (b == [] || !White(b[|b| - 1]))
    ensures TrimRight(b + c) == b
  {
    if c == [] {
      assert b + c == b;
    } else {
      assert (b + c)[..|b + c| - 1] == b + c[..|c| - 1];
      TrailingWhiteGoes(b, c[..|c| - 1]);
    }
  }

  /** White space goes from both ends, and nothing else. */
  lemma OuterWhiteGoes(a: string, b: string, c: string)
    requires forall i | 0 <= i < |a| :: White(a[i])
    requires forall i | 0 <= i < |c| :: White(c[i])
    requires b != [] && Trimmed(b)
    ensures Trim(a + (b + c)) == b
  {
    LeadingWhiteGoes(a, b + c);
    TrailingWhiteGoes(b, c);
  }

  // ---------------------------------------------------------------- the whole

  /** What is written is first rid of its tags; its entities are decoded and its special
      characters escaped; then null characters, schemes and outer white space go. */
  lemma SanitizedText(pieces: seq<Piece>, tail: string)
    requires Tagged(pieces, tail)
    ensures SanitizeString(Written(pieces, tail))
         == Trim(DropSchemes(RemoveChar(Escape(Decode(Untagged(pieces, tail))), '\0')))
  {
    var s, text := Written(pieces, tail), Untagged(pieces, tail);
    StripTagsLeavesTheRest(pieces, tail);
    ChainedEscapeIsEscape(Decode(text));
    if s == [] {
      CanonicaliseFixesSafe(s);
    }
  }

  /** When the last steps have nothing to delete, a reader who decodes the output sees the
      decoded text that stood outside the tags. */
  lemma SanitizeStringMeaning(pieces: seq<Piece>, tail: string)
    requires Tagged(pieces, tail)
    requires var c := Escape(Decode(Untagged(pieces, tail))); '\0' !in c && NoScheme(c) && Trimmed(c)
    ensures Decode(SanitizeString(Written(pieces, tail))) == Decode(Untagged(pieces, tail))
  {
    var text := Untagged(pieces, tail);
    var c := Escape(Decode(text));
    SanitizedText(pieces, tail);
    RemoveCharFixes(c, '\0');
    DropSchemesFixes(c);
    TrimFixes(c);
    DecodeEscape(Decode(text));
  }
}
