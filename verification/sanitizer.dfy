/** The name sanitiser `sanitize` (Download_Audio.py, lines 67-68): every space
    becomes `_`, then every backslash, slash, star, question mark, colon,
    double quote, angle bracket and vertical bar is deleted. */
module Sanitizer {

  /** The characters the regular expression of `sanitize` deletes. */
  const Illegal: set<char> := {'\\', '/', '*', '?', ':', '"', '<', '>', '|'}

  /** A character that survives sanitising unchanged. */
  predicate Safe(c: char)
  {
    c != ' ' && c !in Illegal
  }

  /** A string made only of safe characters. */
  predicate AllSafe(s: string)
  {
    forall c :: c in s ==> Safe(c)
  }

  /** `str.replace(' ', '_')`. */
  function ReplaceSpaces(s: string): (r: string)
    ensures |r| == |s|
    ensures forall i :: 0 <= i < |s| ==> r[i] == (if s[i] == ' ' then '_' else s[i])
  {
    if s == [] then [] else [if s[0] == ' ' then '_' else s[0]] + ReplaceSpaces(s[1..])
  }

  /** The `re.sub` step: every character of Illegal is removed. */
  function StripIllegal(s: string): (r: string)
    ensures |r| <= |s|
    ensures forall c :: c in r ==> c in s && c !in Illegal
  {
    if s == [] then []
    else if s[0] in Illegal then StripIllegal(s[1..])
    else [s[0]] + StripIllegal(s[1..])
  }

  /** `sanitize(name)`: the result never holds a space nor any illegal
      character, in particular never a path separator. */
  function Sanitize(name: string): (r: string)
    ensures |r| <= |name|
    ensures AllSafe(r)
  {
    StripIllegal(ReplaceSpaces(name))
  }

  /** What sanitising does to one character. */
  function SanitizedChar(c: char): string
  {
    if c == ' ' then "_" else if c in Illegal then "" else [c]
  }

  lemma {:induction false} ReplaceSpacesConcat(s: string, t: string)
    ensures ReplaceSpaces(s + t) == ReplaceSpaces(s) + ReplaceSpaces(t)
  {
    if s != [] {
      assert (s + t)[1..] == s[1..] + t;
      ReplaceSpacesConcat(s[1..], t);
    } else {
      assert s + t == t;
    }
  }

  lemma {:induction false} StripIllegalConcat(s: string, t: string)
    ensures StripIllegal(s + t) == StripIllegal(s) + StripIllegal(t)
  {
    if s != [] {
      assert (s + t)[1..] == s[1..] + t;
      StripIllegalConcat(s[1..], t);
    } else {
      assert s + t == t;
    }
  }

  /** Sanitising works character by character: it distributes over
      concatenation, so every kept character stays in its place, in order. */
  lemma {:induction false} SanitizeConcat(s: string, t: string)
    ensures Sanitize(s + t) == Sanitize(s) + Sanitize(t)
  {
    ReplaceSpacesConcat(s, t);
    StripIllegalConcat(ReplaceSpaces(s), ReplaceSpaces(t));
  }

  /** A space becomes `_`, an illegal character disappears, any other
      character is kept as it is. */
  lemma SanitizeOneChar(c: char)
    ensures Sanitize([c]) == SanitizedChar(c)
  {
    assert ReplaceSpaces([c]) == [if c == ' ' then '_' else c] + ReplaceSpaces([]);
  }

  /** Together with SanitizeConcat: the result is the input with every
      character replaced by its SanitizedChar. */
  lemma {:induction false} SanitizeCharwise(s: string)
    ensures s != [] ==> Sanitize(s) == SanitizedChar(s[0]) + Sanitize(s[1..])
  {
    if s != [] {
      assert s == [s[0]] + s[1..];
      SanitizeConcat([s[0]], s[1..]);
      SanitizeOneChar(s[0]);
    }
  }

  lemma {:induction false} ReplaceSpacesFixes(s: string)
    requires ' ' !in s
    ensures ReplaceSpaces(s) == s
  {
    if s != [] {
      assert s[0] in s;
      assert forall c :: c in s[1..] ==> c in s;
      ReplaceSpacesFixes(s[1..]);
    }
  }

  lemma {:induction false} StripIllegalFixes(s: string)
    requires forall c :: c in s ==> c !in Illegal
    ensures StripIllegal(s) == s
  {
    if s != [] {
      assert s[0] in s;
      assert forall c :: c in s[1..] ==> c in s;
      StripIllegalFixes(s[1..]);
    }
  }

  /** A name made only of safe characters passes through unchanged. */
  lemma SanitizeFixes(s: string)
    requires AllSafe(s)
    ensures Sanitize(s) == s
  {
    ReplaceSpacesFixes(s);
    StripIllegalFixes(s);
  }

  /** Sanitising twice is sanitising once. */
  lemma SanitizeIdempotent(s: string)
    ensures Sanitize(Sanitize(s)) == Sanitize(s)
  {
    SanitizeFixes(Sanitize(s));
  }
}
