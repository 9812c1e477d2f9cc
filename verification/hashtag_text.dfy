/** Finding hashtags in a text (posts.service.ts). */
module HashtagText {
  import opened Ascii

  /** `\w` */
  predicate Word(c: char) {
    'a' <= c <= 'z' || 'A' <= c <= 'Z' || '0' <= c <= '9' || c == '_'
  }

  /** The length of the run of word characters `s` starts with. */
  function WordRun(s: string): (n: nat)
    ensures n <= |s| && (n < |s| ==> !Word(s[n]))
    ensures forall i :: 0 <= i < n ==> Word(s[i])
  {
    if s != [] && Word(s[0]) then 1 + WordRun(s[1..]) else 0
  }

  /** The matches of `/#(\w+)/g`, from left to right, each without its `#`. */
  function Matches(s: string): seq<string> {
    if s == [] then []
    else
      var n := WordRun(s[1..]);
      if s[0] == '#' && n > 0 then [s[1..1 + n]] + Matches(s[1 + n..])
      else Matches(s[1..])
  }

  /** `[...new Set(tags)]`: the first occurrence of each. */
  function Distinct(tags: seq<string>): (r: seq<string>)
    ensures forall t :: t in r <==> t in tags
    ensures forall i, j :: 0 <= i < j < |r| ==> r[i] != r[j]
  {
    if tags == [] then []
    else
      var front, last := tags[..|tags| - 1], tags[|tags| - 1];
      assert tags == front + [last];
      var r := Distinct(front);
      if last in r then r else r + [last]
  }

  function Lowered(tags: seq<string>): seq<string> {
    seq(|tags|, i requires 0 <= i < |tags| => LowerAll(tags[i]))
  }

  function ExtractHashtags(content: string): seq<string> {
    Distinct(Lowered(Matches(content)))
  }

  /** At position `i` there is a `#` followed by the maximal, non-empty word run `t`. */
  ghost predicate TagAt(s: string, i: nat, t: string) {
    && i < |s| && s[i] == '#' && t != []
    && t <= s[i + 1..] && (forall k :: 0 <= k < |t| ==> Word(t[k]))
    && (i + 1 + |t| < |s| ==> !Word(s[i + 1 + |t|]))
  }

  lemma TagAtDrop(s: string, k: nat, i: nat, t: string)
    requires k <= i
    ensures k <= |s| ==> (TagAt(s, i, t) <==> TagAt(s[k..], i - k, t))
  {
    if k <= i < |s| {
      assert s[k..][i - k] == s[i] && s[k..][i - k + 1..] == s[i + 1..];
      assert |s[i + 1..]| >= |t| && i + 1 + |t| < |s| ==> s[k..][i - k + 1 + |t|] == s[i + 1 + |t|];
    }
  }

  /** At most one word run is maximal at a position. */
  lemma TagAtUnique(s: string, i: nat, t: string)
    requires TagAt(s, i, t)
    ensures |t| == WordRun(s[i + 1..]) && t == s[i + 1..i + 1 + WordRun(s[i + 1..])]
  {
    var rest := s[i + 1..];
    assert |t| < |rest| ==> rest[|t|] == s[i + 1 + |t|];
    assert forall k :: 0 <= k < |t| ==> rest[k] == t[k];
    assert rest[..|t|] == t;
  }

  ghost predicate HasTag(s: string, t: string) {
    exists i: nat :: TagAt(s, i, t)
  }

  /** Positions at which no tag begins can be cut off the front. */
  lemma TagsFrom(s: string, k: nat, t: string)
    requires k <= |s| && forall i :: 0 <= i < k ==> !TagAt(s, i, t)
    ensures HasTag(s, t) <==> HasTag(s[k..], t)
  {
    if HasTag(s, t) {
      var i: nat :| TagAt(s, i, t);
      TagAtDrop(s, k, i, t);
    }
    if HasTag(s[k..], t) {
      var i: nat :| TagAt(s[k..], i, t);
      TagAtDrop(s, k, i + k, t);
      assert TagAt(s, i + k, t);
    }
  }

  lemma FirstMatch(s: string, t: string)
    requires s != [] && s[0] == '#' && WordRun(s[1..]) > 0
    ensures var n := WordRun(s[1..]); HasTag(s, t) <==> t == s[1..1 + n] || HasTag(s[1 + n..], t)
  {
    var n := WordRun(s[1..]);
    assert s[1..1 + n] == s[1..][..n];
    assert TagAt(s, 0, s[1..1 + n]);
    if t != s[1..1 + n] {
      forall i | 0 <= i < 1 + n ensures !TagAt(s, i, t) {
        if i == 0 {
          if TagAt(s, 0, t) { TagAtUnique(s, 0, t); }
        } else {
          assert Word(s[1..][i - 1]);
        }
      }
      TagsFrom(s, 1 + n, t);
    }
  }

  lemma {:induction false} MatchesAreTheTags(s: string, t: string)
    ensures t in Matches(s) <==> HasTag(s, t)
    decreases |s|
  {
    if s != [] {
      var n := WordRun(s[1..]);
      if s[0] == '#' && n > 0 {
        MatchesAreTheTags(s[1 + n..], t);
        FirstMatch(s, t);
      } else {
        MatchesAreTheTags(s[1..], t);
        if TagAt(s, 0, t) { TagAtUnique(s, 0, t); }
        TagsFrom(s, 1, t);
      }
    }
  }

  /** The extracted tags are exactly the lower-cased maximal word runs after a `#`, each
      once. */
  lemma ExtractedTags(content: string, tag: string)
    ensures tag in ExtractHashtags(content) <==> exists i: nat, t :: TagAt(content, i, t) && tag == LowerAll(t)
    ensures forall i, j :: 0 <= i < j < |ExtractHashtags(content)| ==> ExtractHashtags(content)[i] != ExtractHashtags(content)[j]
  {
    var matches := Matches(content);
    if tag in ExtractHashtags(content) {
      var k :| 0 <= k < |matches| && Lowered(matches)[k] == tag;
      MatchesAreTheTags(content, matches[k]);
      var i: nat :| TagAt(content, i, matches[k]);
    }
    if exists i: nat, t :: TagAt(content, i, t) && tag == LowerAll(t) {
      var i: nat, t :| TagAt(content, i, t) && tag == LowerAll(t);
      MatchesAreTheTags(content, t);
      var k :| 0 <= k < |matches| && matches[k] == t;
      assert Lowered(matches)[k] == tag;
    }
  }
}
