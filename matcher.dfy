/** The vanity matcher: decides whether a generated public key carries the
    operator's pattern. The source only anchors the pattern at the END of the
    key; there is no prefix mode.

    Base58 public keys are ASCII, so case folding is modelled as ASCII
    lower-casing: letters 'A'..'Z' map to 'a'..'z' and every other character
    is left alone. */
module Matcher {

  /** ASCII lower-casing of one character. */
  function LowerChar(c: char): char
  {
    if 'A' <= c <= 'Z' then (c as int - 'A' as int + 'a' as int) as char else c
  }

  /** Lower-cases a string character by character (the ASCII part of
      `to_lowercase`). */
  function ToLower(s: string): (r: string)
    ensures |r| == |s|
    ensures forall i :: 0 <= i < |s| ==> r[i] == LowerChar(s[i])
  {
    if s == [] then [] else [LowerChar(s[0])] + ToLower(s[1..])
  }

  /** `s.ends_with(suffix)`: the last |suffix| characters of `s` are `suffix`,
      that is, `s` is some string followed by `suffix`. */
  predicate EndsWith(s: string, suffix: string)
    ensures EndsWith(s, suffix) <==> exists p: string :: p + suffix == s
  {
    SuffixSplit(s, suffix);
    |suffix| <= |s| && s[|s| - |suffix|..] == suffix
  }

  /** Two keys that differ only in the case of their letters. */
  ghost predicate SameUpToCase(a: string, b: string)
  {
    |a| == |b| && forall i :: 0 <= i < |a| ==> LowerChar(a[i]) == LowerChar(b[i])
  }

  /** The pattern and mode shared read-only by every worker. `vanityLower` is
      the pattern lower-cased once, before any worker starts. */
  datatype SearchTarget = SearchTarget(vanity: string, vanityLower: string, caseSensitive: bool)
  {
    ghost predicate WellFormed()
    {
      vanityLower == ToLower(vanity)
    }
  }

  /** Builds the target the way `spawn_threads` does: the lower-cased pattern
      is computed here, once. */
  function NewSearchTarget(vanity: string, caseSensitive: bool): (t: SearchTarget)
    ensures t.vanity == vanity && t.caseSensitive == caseSensitive
    ensures t.WellFormed()
    ensures ToLower(t.vanityLower) == t.vanityLower
  {
    ToLowerIdempotent(vanity);
    SearchTarget(vanity, ToLower(vanity), caseSensitive)
  }

  /** `check_vanity_string`: case-sensitive mode compares the key itself,
      case-insensitive mode lower-cases the key on every call and compares it
      with the pre-lowered pattern. */
  function CheckVanityString(publicKey: string, vanityString: string, vanityLower: string,
                             caseSensitive: bool): (r: bool)
    ensures caseSensitive ==> (r <==> exists p: string :: p + vanityString == publicKey)
    ensures !caseSensitive ==> (r <==> exists p: string :: p + vanityLower == ToLower(publicKey))
  {
    if caseSensitive then EndsWith(publicKey, vanityString)
    else EndsWith(ToLower(publicKey), vanityLower)
  }

  /** The matcher as a worker calls it, with the arguments taken from the target. */
  function Matches(publicKey: string, t: SearchTarget): bool
  {
    CheckVanityString(publicKey, t.vanity, t.vanityLower, t.caseSensitive)
  }

  // ---------------------------------------------------------------------------
  // Properties of case folding

  lemma {:induction false} ToLowerIdempotent(s: string)
    ensures ToLower(ToLower(s)) == ToLower(s)
  {
    var l, ll := ToLower(s), ToLower(ToLower(s));
    forall i | 0 <= i < |s| ensures ll[i] == l[i] {
    }
  }

  /** Lower-casing commutes with taking a suffix of the key. */
  lemma {:induction false} ToLowerSuffix(s: string, n: nat)
    requires n <= |s|
    ensures ToLower(s)[n..] == ToLower(s[n..])
  {
    var l, r := ToLower(s)[n..], ToLower(s[n..]);
    assert |l| == |r|;
    forall i | 0 <= i < |l| ensures l[i] == r[i] {
      assert s[n..][i] == s[n + i];
    }
  }

  // ---------------------------------------------------------------------------
  // Properties of the matcher

  /** The last |suffix| characters of `s` are `suffix` exactly when `s`
      splits into some prefix followed by `suffix`. */
  lemma {:induction false} SuffixSplit(s: string, suffix: string)
    ensures (|suffix| <= |s| && s[|s| - |suffix|..] == suffix) <==> exists p: string :: p + suffix == s
  {
    if |suffix| <= |s| && s[|s| - |suffix|..] == suffix {
      var p := s[..|s| - |suffix|];
      assert p + suffix == s;
    }
    if exists p: string :: p + suffix == s {
      var p: string :| p + suffix == s;
      assert s[|s| - |suffix|..] == (p + suffix)[|p|..];
    }
  }

  /** Case-insensitive mode: the key matches exactly when its lower-cased form
      is some string followed by the lower-cased pattern. */
  lemma CaseInsensitiveMatch(publicKey: string, t: SearchTarget)
    requires !t.caseSensitive && t.WellFormed()
    ensures Matches(publicKey, t) <==> exists p: string :: p + ToLower(t.vanity) == ToLower(publicKey)
  {
    assert t.vanityLower == ToLower(t.vanity);
  }

  /** The empty pattern is accepted and matches every key in both modes. */
  lemma EmptyPatternMatchesAll(publicKey: string, caseSensitive: bool)
    ensures Matches(publicKey, NewSearchTarget("", caseSensitive))
  {
    assert ToLower(publicKey)[|publicKey|..] == [];
  }

  /** A case-sensitive match is also a case-insensitive match. */
  lemma SensitiveImpliesInsensitive(publicKey: string, vanity: string)
    requires Matches(publicKey, NewSearchTarget(vanity, true))
    ensures Matches(publicKey, NewSearchTarget(vanity, false))
  {
    ToLowerSuffix(publicKey, |publicKey| - |vanity|);
  }

  /** Lower-casing the pattern once up front changes nothing for the
      case-insensitive matcher: an already lower-cased pattern matches the
      same keys as the original. */
  lemma LoweredPatternSameMatches(publicKey: string, vanity: string)
    ensures Matches(publicKey, NewSearchTarget(ToLower(vanity), false))
         == Matches(publicKey, NewSearchTarget(vanity, false))
  {
    ToLowerIdempotent(vanity);
  }

  /** Case-insensitive matching ignores the case of the key's letters: any
      re-casing of a matching key matches too. */
  lemma CaseBlind(a: string, b: string, t: SearchTarget)
    requires !t.caseSensitive && SameUpToCase(a, b)
    ensures Matches(a, t) == Matches(b, t)
  {
    assert ToLower(a) == ToLower(b);
  }

  /** The pattern is anchored at the end only: a key that merely STARTS with
      the pattern does not match. */
  lemma PrefixIsNotAMatch()
    ensures !Matches("abcX", NewSearchTarget("abc", true))
    ensures Matches("Xabc", NewSearchTarget("abc", true))
  {
    assert "abcX"[1..] != "abc" by { assert "abcX"[1..][2] == 'X'; }
    assert "Xabc"[1..] == "abc";
  }
}
