/**
 The regular expressions of kio.py: literals and capturing groups of one or more digits,
 or digits and points.  The matcher takes as much as it can for every group and never
 backtracks; for the patterns used, in which a literal that cannot continue the group
 follows every group, that is what a regular expression engine finds.
 */
module Pattern {
  import opened Text

  datatype Class = Digits | DigitsAndPoints

  datatype Pattern = End | Lit(text: string, next: Pattern) | Group(cls: Class, next: Pattern)

  predicate InClass(cls: Class, c: char) { IsDigit(c) || (cls == DigitsAndPoints && c == '.') }

  predicate AllIn(cls: Class, s: string) { forall i | 0 <= i < |s| :: InClass(cls, s[i]) }

  // ---------- the reference: what it means to match ----------

  /** One captured text for each group, each non-empty and of the group's class. */
  predicate Captures(pat: Pattern, caps: seq<string>) {
    match pat
    case End => caps == []
    case Lit(_, next) => Captures(next, caps)
    case Group(cls, next) => caps != [] && caps[0] != [] && AllIn(cls, caps[0]) && Captures(next, caps[1..])
  }

  /** The classes of the pattern's groups, in order. */
  function Classes(pat: Pattern): seq<Class> {
    match pat
    case End => []
    case Lit(_, next) => Classes(next)
    case Group(cls, next) => [cls] + Classes(next)
  }

  lemma {:induction false} CapturesByIndex(pat: Pattern, caps: seq<string>)
    ensures Captures(pat, caps)
       <==> |caps| == |Classes(pat)| && forall i | 0 <= i < |caps| :: caps[i] != [] && AllIn(Classes(pat)[i], caps[i])
    decreases pat
  {
    match pat
    case End =>
    case Lit(_, next) => CapturesByIndex(next, caps);
    case Group(cls, next) =>
      if caps != [] {
        CapturesByIndex(next, caps[1..]);
        assert forall i | 0 < i < |caps| :: caps[i] == caps[1..][i - 1];
        assert forall i | 0 < i < |Classes(pat)| :: Classes(pat)[i] == Classes(next)[i - 1];
      }
  }

  /** The text a pattern and its captures stand for. */
  function Instance(pat: Pattern, caps: seq<string>): string
    requires Captures(pat, caps)
  {
    match pat
    case End => []
    case Lit(text, next) => text + Instance(next, caps)
    case Group(_, next) => caps[0] + Instance(next, caps[1..])
  }

  // ---------- the matcher ----------

  /** How many characters of the class the text starts with. */
  function RunLength(cls: Class, text: string): (n: nat)
    ensures n <= |text|
    ensures forall i | 0 <= i < n :: InClass(cls, text[i])
    ensures n < |text| ==> !InClass(cls, text[n])
  {
    if text == [] || !InClass(cls, text[0]) then 0 else 1 + RunLength(cls, text[1..])
  }

  datatype Match = NoMatch | Matched(caps: seq<string>, rest: string)

  /** A match of the pattern at the start of the text, with what is left of it. */
  function MatchAt(pat: Pattern, text: string): Match {
    match pat
    case End => Matched([], text)
    case Lit(t, next) => if t <= text then MatchAt(next, text[|t|..]) else NoMatch
    case Group(cls, next) =>
      var n := RunLength(cls, text);
      if n == 0 then NoMatch
      else match MatchAt(next, text[n..])
        case NoMatch => NoMatch
        case Matched(caps, rest) => Matched([text[..n]] + caps, rest)
  }

  /** re.search: the leftmost match. */
  function Search(pat: Pattern, text: string): Match {
    var m := MatchAt(pat, text);
    if m.Matched? || text == [] then m else Search(pat, text[1..])
  }

  // ---------- the matcher finds exactly the matches ----------

  /** What is found is a match. */
  lemma {:induction false} MatchIsInstance(pat: Pattern, text: string)
    requires MatchAt(pat, text).Matched?
    ensures var m := MatchAt(pat, text);
            Captures(pat, m.caps) && text == Instance(pat, m.caps) + m.rest
  {
    match pat
    case End =>
    case Lit(t, next) =>
      MatchIsInstance(next, text[|t|..]);
      var m := MatchAt(next, text[|t|..]);
      Joins(t, Instance(next, m.caps), text, m.rest);
    case Group(cls, next) =>
      var n := RunLength(cls, text);
      MatchIsInstance(next, text[n..]);
      var m := MatchAt(next, text[n..]);
      assert ([text[..n]] + m.caps)[1..] == m.caps;
      Joins(text[..n], Instance(next, m.caps), text, m.rest);
  }

  lemma Joins(t: string, instance: string, text: string, rest: string)
    requires t <= text && text[|t|..] == instance + rest
    ensures text == (t + instance) + rest
  {
    assert text == t + text[|t|..];
  }

  /** Every group is followed by a literal that cannot continue it, or ends the pattern. */
  predicate Delimited(pat: Pattern) {
    match pat
    case End => true
    case Lit(_, next) => Delimited(next)
    case Group(cls, next) =>
      Delimited(next) && (next.End? || (next.Lit? && next.text != [] && !InClass(cls, next.text[0])))
  }

  /** A text that follows the whole pattern does not continue its last group. */
  predicate Ends(pat: Pattern, rest: string) {
    match pat
    case End => true
    case Lit(_, next) => Ends(next, rest)
    case Group(cls, next) => Ends(next, rest) && (next.End? && rest != [] ==> !InClass(cls, rest[0]))
  }

  lemma RunLengthIs(cls: Class, cap: string, rest: string)
    requires AllIn(cls, cap) && (rest != [] ==> !InClass(cls, rest[0]))
    ensures RunLength(cls, cap + rest) == |cap|
  {
    var text := cap + rest;
    assert forall i | 0 <= i < |cap| :: InClass(cls, text[i]);
    assert rest != [] ==> text[|cap|] == rest[0];
  }

  /** Conversely, every text that stands for the pattern is matched, with the same captures. */
  lemma {:induction false} InstanceIsMatched(pat: Pattern, caps: seq<string>, text: string, rest: string)
    requires Delimited(pat) && Captures(pat, caps) && Ends(pat, rest)
    requires text == Instance(pat, caps) + rest
    ensures MatchAt(pat, text) == Matched(caps, rest)
    decreases pat
  {
    match pat
    case End =>
    case Lit(t, next) =>
      LitSplits(t, Instance(next, caps), text, rest);
      InstanceIsMatched(next, caps, text[|t|..], rest);
    case Group(cls, next) =>
      LitSplits(caps[0], Instance(next, caps[1..]), text, rest);
      var tail := text[|caps[0]|..];
      InstanceIsMatched(next, caps[1..], tail, rest);
      GroupEnds(cls, next, caps[1..], rest);
      GroupIsMatched(cls, next, caps, text, tail);
  }

  lemma LitSplits(t: string, instance: string, text: string, rest: string)
    requires text == (t + instance) + rest
    ensures t <= text && text[|t|..] == instance + rest && text == t + text[|t|..]
  {
  }

  lemma GroupEnds(cls: Class, next: Pattern, caps: seq<string>, rest: string)
    requires Delimited(Group(cls, next)) && Ends(Group(cls, next), rest) && Captures(next, caps)
    ensures var tail := Instance(next, caps) + rest;
            tail != [] ==> !InClass(cls, tail[0])
  {
    if next.Lit? {
      assert (Instance(next, caps) + rest)[0] == next.text[0];
    }
  }

  lemma GroupIsMatched(cls: Class, next: Pattern, caps: seq<string>, text: string, tail: string)
    requires caps != [] && caps[0] != [] && AllIn(cls, caps[0]) && text == caps[0] + tail
    requires tail != [] ==> !InClass(cls, tail[0])
    requires MatchAt(next, tail).Matched? && MatchAt(next, tail).caps == caps[1..]
    ensures MatchAt(Group(cls, next), text) == Matched(caps, MatchAt(next, tail).rest)
  {
    RunLengthIs(cls, caps[0], tail);
    assert text[..|caps[0]|] == caps[0] && text[|caps[0]|..] == tail;
    assert [caps[0]] + caps[1..] == caps;
  }

  // ---------- searching ----------

  /** A pattern that starts with a literal skips everything before that literal's first character. */
  lemma {:induction false} SearchSkips(pat: Pattern, prefix: string, text: string)
    requires pat.Lit? && pat.text != [] && pat.text[0] !in prefix
    ensures Search(pat, prefix + text) == Search(pat, text)
    decreases |prefix|
  {
    if prefix == [] {
      assert prefix + text == text;
    } else {
      assert (prefix + text)[1..] == prefix[1..] + text;
      assert (prefix + text)[0] == prefix[0];
      assert MatchAt(pat, prefix + text).NoMatch?;
      SearchSkips(pat, prefix[1..], text);
    }
  }

  predicate InSomeLiteral(pat: Pattern, c: char) {
    match pat
    case End => false
    case Lit(text, next) => c in text || InSomeLiteral(next, c)
    case Group(_, next) => InSomeLiteral(next, c)
  }

  lemma {:induction false} LiteralsOccur(pat: Pattern, caps: seq<string>, c: char)
    requires Captures(pat, caps) && InSomeLiteral(pat, c)
    ensures c in Instance(pat, caps)
    decreases pat
  {
    match pat
    case Lit(text, next) => if c !in text { LiteralsOccur(next, caps, c); }
    case Group(_, next) => LiteralsOccur(next, caps[1..], c);
  }

  /** A text without some character of the pattern's literals is not matched anywhere. */
  lemma {:induction false} SearchFailsWithout(pat: Pattern, text: string, c: char)
    requires InSomeLiteral(pat, c) && c !in text
    ensures Search(pat, text).NoMatch?
    decreases |text|
  {
    if MatchAt(pat, text).Matched? {
      MatchIsInstance(pat, text);
      LiteralsOccur(pat, MatchAt(pat, text).caps, c);
      assert false;
    }
    if text == [] {
    } else {
      SearchFailsWithout(pat, text[1..], c);
    }
  }

  /** A character that is in no literal and no class occurs in no instance. */
  lemma {:induction false} ForeignCharacter(pat: Pattern, caps: seq<string>, c: char)
    requires Captures(pat, caps) && !InSomeLiteral(pat, c) && !InClass(DigitsAndPoints, c)
    ensures c !in Instance(pat, caps)
    decreases pat
  {
    match pat
    case End =>
    case Lit(_, next) => ForeignCharacter(next, caps, c);
    case Group(_, next) => ForeignCharacter(next, caps[1..], c);
  }

  // ---------- texts split by a character the pattern cannot take ----------

  /** A character that is in no literal of the pattern and in no class. */
  predicate Foreign(pat: Pattern, c: char) { !InSomeLiteral(pat, c) && !InClass(DigitsAndPoints, c) }

  /** The same match with more text behind it. */
  function Extended(m: Match, tail: string): Match {
    match m
    case NoMatch => NoMatch
    case Matched(caps, rest) => Matched(caps, rest + tail)
  }

  /** No match reaches into a tail that starts with a foreign character. */
  lemma {:induction false} MatchSplits(pat: Pattern, text: string, tail: string)
    requires tail != [] && Foreign(pat, tail[0])
    ensures MatchAt(pat, text + tail) == Extended(MatchAt(pat, text), tail)
    decreases pat
  {
    match pat
    case End =>
    case Lit(t, next) =>
      LiteralStops(t, text, tail);
      if t <= text {
        assert (text + tail)[|t|..] == text[|t|..] + tail;
        MatchSplits(next, text[|t|..], tail);
      }
    case Group(cls, next) =>
      RunStops(cls, text, tail);
      var n := RunLength(cls, text);
      assert (text + tail)[n..] == text[n..] + tail;
      assert (text + tail)[..n] == text[..n];
      MatchSplits(next, text[n..], tail);
  }

  lemma LiteralStops(t: string, text: string, tail: string)
    requires tail != [] && tail[0] !in t
    ensures t <= text + tail <==> t <= text
  {
    var whole := text + tail;
    assert whole[|text|] == tail[0];
    assert forall i | 0 <= i < |text| :: whole[i] == text[i];
  }

  lemma RunStops(cls: Class, text: string, tail: string)
    requires tail != [] && !InClass(cls, tail[0])
    ensures RunLength(cls, text + tail) == RunLength(cls, text)
  {
    var n := RunLength(cls, text);
    assert forall i | 0 <= i < n :: (text + tail)[i] == text[i];
    assert !InClass(cls, (text + tail)[n]);
  }

  /** A search finds what is in front of a foreign character, and otherwise what is behind it. */
  lemma {:induction false} SearchSplits(pat: Pattern, text: string, tail: string)
    requires tail != [] && Foreign(pat, tail[0])
    ensures Search(pat, text + tail)
         == if Search(pat, text).Matched? then Extended(Search(pat, text), tail) else Search(pat, tail)
    decreases |text|
  {
    MatchSplits(pat, text, tail);
    if text == [] {
      assert text + tail == tail;
    } else {
      assert (text + tail)[1..] == text[1..] + tail;
      SearchSplits(pat, text[1..], tail);
    }
  }

  // ---------- literals of what is found ----------

  predicate OccursAt(part: string, text: string, i: nat) { i + |part| <= |text| && text[i..i + |part|] == part }

  ghost predicate Contains(text: string, part: string) { exists i: nat :: OccursAt(part, text, i) }

  predicate HasLiteral(pat: Pattern, t: string) {
    match pat
    case End => false
    case Lit(text, next) => text == t || HasLiteral(next, t)
    case Group(_, next) => HasLiteral(next, t)
  }

  lemma OccursLater(part: string, before: string, text: string, i: nat)
    requires OccursAt(part, text, i)
    ensures OccursAt(part, before + text, |before| + i)
  {
  }

  lemma OccursBefore(part: string, text: string, after: string, i: nat)
    requires OccursAt(part, text, i)
    ensures OccursAt(part, text + after, i)
  {
  }

  lemma {:induction false} InstanceContains(pat: Pattern, caps: seq<string>, t: string) returns (i: nat)
    requires Captures(pat, caps) && HasLiteral(pat, t)
    ensures OccursAt(t, Instance(pat, caps), i)
    decreases pat
  {
    match pat
    case Lit(text, next) =>
      if text == t {
        i := 0;
      } else {
        i := InstanceContains(next, caps, t);
        OccursLater(t, text, Instance(next, caps), i);
        i := |text| + i;
      }
    case Group(_, next) =>
      i := InstanceContains(next, caps[1..], t);
      OccursLater(t, caps[0], Instance(next, caps[1..]), i);
      i := |caps[0]| + i;
  }

  /** A text in which a match is found contains every literal of the pattern. */
  lemma {:induction false} FoundContains(pat: Pattern, text: string, t: string) returns (i: nat)
    requires Search(pat, text).Matched? && HasLiteral(pat, t)
    ensures OccursAt(t, text, i)
    decreases |text|
  {
    var m := MatchAt(pat, text);
    if m.Matched? {
      MatchIsInstance(pat, text);
      i := InstanceContains(pat, m.caps, t);
      OccursBefore(t, Instance(pat, m.caps), m.rest, i);
    } else {
      i := FoundContains(pat, text[1..], t);
      OccursLater(t, text[..1], text[1..], i);
      assert text[..1] + text[1..] == text;
      i := i + 1;
    }
  }

  /** A text without some part of some literal of the pattern is not matched anywhere. */
  lemma SearchFailsWithoutPart(pat: Pattern, text: string, a: string, b: string)
    requires HasLiteral(pat, a + b) && !Contains(text, b)
    ensures Search(pat, text).NoMatch?
  {
    if Search(pat, text).Matched? {
      var i := FoundContains(pat, text, a + b);
      Shorter(text, a, b, i);
      assert false;
    }
  }

  lemma Shorter(text: string, a: string, b: string, i: nat)
    requires OccursAt(a + b, text, i)
    ensures OccursAt(b, text, i + |a|)
  {
    assert text[i + |a|..i + |a| + |b|] == text[i..i + |a + b|][|a|..];
  }
}
