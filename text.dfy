/** The optional value the scripts express with Python's `None`. */
module Options {
  datatype Option<+T> = None | Some(value: T)
}

/**
 * The string operations both scripts rely on: Python's `pat in s`,
 * `s.split(' ')[0]`, `s.lower()`, and the "first keyword that occurs wins"
 * rule that every `if ... elif ...` chain over substrings follows.
 */
module Text {

  /** Python's `pat in s` on strings: `pat` is a prefix of `s` or of one of its suffixes. */
  predicate Contains(s: string, pat: string): (r: bool)
    ensures pat <= s ==> r
    ensures r ==> |pat| <= |s|
    decreases |s|
  {
    |pat| <= |s| && (pat <= s || Contains(s[1..], pat))
  }

  /** `pat` is the slice of `s` that starts at index `i`. */
  predicate OccursAt(s: string, pat: string, i: int) {
    0 <= i <= |s| - |pat| && s[i..i + |pat|] == pat
  }

  /** `Contains` means what `in` means: the pattern is one of the text's slices. */
  lemma {:induction false} ContainsIffOccurs(s: string, pat: string)
    ensures Contains(s, pat) <==> exists i :: OccursAt(s, pat, i)
    decreases |s|
  {
    if |pat| <= |s| {
      if pat <= s {
        assert OccursAt(s, pat, 0);
      } else {
        assert !OccursAt(s, pat, 0);
        ContainsIffOccurs(s[1..], pat);
        if Contains(s[1..], pat) {
          var i :| OccursAt(s[1..], pat, i);
          assert OccursAt(s, pat, i + 1);
        }
        if i :| OccursAt(s, pat, i) {
          assert i > 0 && OccursAt(s[1..], pat, i - 1);
        }
      }
    }
  }

  lemma ContainsItself(s: string)
    ensures Contains(s, s)
  {
  }

  /** A pattern longer than the text never occurs in it. */
  lemma ContainsShorter(s: string, pat: string)
    requires |s| < |pat|
    ensures !Contains(s, pat)
  {
  }

  /**
   * `s.split(' ')[0]`: the part of `s` before its first space, or all of
   * `s` when it has none (so "" for an empty `s` or one starting with a space).
   */
  function FirstToken(s: string): (r: string)
    ensures r <= s
    ensures ' ' !in r
    ensures |r| < |s| ==> s[|r|] == ' '
  {
    if s == [] || s[0] == ' ' then "" else [s[0]] + FirstToken(s[1..])
  }

  /** A text without a space is its own first token, so splitting it again changes nothing. */
  lemma {:induction false} FirstTokenOfToken(s: string)
    requires ' ' !in s
    ensures FirstToken(s) == s
  {
    if s != [] {
      assert ' ' !in s[1..];
      FirstTokenOfToken(s[1..]);
    }
  }

  /**
   * Reference for every `if k0 in s ... elif k1 in s ...` chain: the index
   * of the first keyword in `keys` that occurs in `s`, or `|keys|` if none does.
   */
  function FirstContained(s: string, keys: seq<string>): (i: nat)
    ensures i <= |keys|
    ensures i < |keys| ==> Contains(s, keys[i])
    ensures forall j :: 0 <= j < i ==> !Contains(s, keys[j])
  {
    if keys == [] then 0
    else if Contains(s, keys[0]) then 0
    else 1 + FirstContained(s, keys[1..])
  }

  /**
   * `r` is what a first-match chain over `keys` gives for `text`: the first
   * key that occurs in it, or the text itself when none occurs.
   */
  predicate FirstMatchOrSelf(text: string, keys: seq<string>, r: string) {
    var i := FirstContained(text, keys);
    r == if i < |keys| then keys[i] else text
  }

  /**
   * `c.lower()` for the characters this model covers: ASCII `A`-`Z` and the
   * Latin-1 capitals U+00C0-U+00DE other than U+00D7 map to their lower case
   * letter 32 code points on; every other character is kept.
   */
  function LowerChar(c: char): (r: char)
    ensures 'A' <= c <= 'Z' ==> 'a' <= r <= 'z'
    ensures !('A' <= r <= 'Z')
    ensures c == r || c as int + 32 == r as int
    ensures r != c <==> 'A' <= c <= 'Z' || ('\U{C0}' <= c <= '\U{DE}' && c != '\U{D7}')
  {
    if 'A' <= c <= 'Z' || ('\U{C0}' <= c <= '\U{DE}' && c != '\U{D7}') then
      (c as int + 32) as char
    else
      c
  }

  /** `s.lower()`, character by character. */
  function Lower(s: string): (r: string)
    ensures |r| == |s|
    ensures forall i :: 0 <= i < |s| ==> r[i] == LowerChar(s[i])
  {
    if s == [] then [] else [LowerChar(s[0])] + Lower(s[1..])
  }

  /** Lowering a lowered text changes nothing. */
  lemma LowerIdempotent(s: string)
    ensures Lower(Lower(s)) == Lower(s)
  {
    var t := Lower(s);
    assert forall i :: 0 <= i < |t| ==> LowerChar(t[i]) == t[i];
  }
}
