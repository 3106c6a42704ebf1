// Pattern matching and clearing by pattern, from internal/cache/memory.go, against a
// recursive meaning of star patterns.

module Patterns {
  predicate HasPrefix(s: string, p: string) {
    |p| <= |s| && s[..|p|] == p
  }

  predicate HasSuffix(s: string, p: string) {
    |p| <= |s| && s[|s| - |p|..] == p
  }

  function Stars(p: string): nat {
    if p == [] then 0 else (if p[0] == '*' then 1 else 0) + Stars(p[1..])
  }

  /** The part before the first star, or everything. */
  function Before(p: string): string {
    if p == [] || p[0] == '*' then [] else [p[0]] + Before(p[1..])
  }

  /** The part after the first star. */
  function After(p: string): string {
    if p == [] then [] else if p[0] == '*' then p[1..] else After(p[1..])
  }

  /** The matcher of the source. A split at the stars has two parts when there is one star. */
  predicate MatchPattern(key: string, pattern: string) {
    if pattern == "*" then true
    else if HasSuffix(pattern, "*") then HasPrefix(key, pattern[..|pattern| - 1])
    else if HasPrefix(pattern, "*") then HasSuffix(key, pattern[1..])
    else if Stars(pattern) == 1 then HasPrefix(key, Before(pattern)) && HasSuffix(key, After(pattern))
    else key == pattern
  }

  /** What a star pattern means: a star stands for any text, every other character for itself. */
  predicate Glob(pattern: string, key: string)
    decreases |pattern| + |key|
  {
    if pattern == [] then key == []
    else if pattern[0] == '*' then Glob(pattern[1..], key) || (key != [] && Glob(pattern, key[1..]))
    else key != [] && key[0] == pattern[0] && Glob(pattern[1..], key[1..])
  }

  lemma {:induction false} StarsSplit(a: string, b: string)
    ensures Stars(a + b) == Stars(a) + Stars(b)
  {
    if a == [] {
      assert a + b == b;
    } else {
      assert (a + b)[1..] == a[1..] + b;
      StarsSplit(a[1..], b);
    }
  }

  lemma {:induction false} StarIn(p: string, i: nat)
    requires i < |p| && p[i] == '*'
    ensures Stars(p) >= 1
  {
    if i == 0 {
    } else {
      StarIn(p[1..], i - 1);
    }
  }

  lemma {:induction false} SplitAtStar(p: string)
    requires Stars(p) >= 1
    ensures p == Before(p) + "*" + After(p)
    ensures Stars(Before(p)) == 0 && Stars(After(p)) == Stars(p) - 1
  {
    if p[0] == '*' {
    } else {
      SplitAtStar(p[1..]);
      assert p == [p[0]] + p[1..];
      assert Before(p)[1..] == Before(p[1..]);
    }
  }

  // ---- The meaning of patterns with at most one star ----

  lemma {:induction false} GlobLiteral(lit: string, rest: string, key: string)
    requires Stars(lit) == 0
    ensures Glob(lit + rest, key) <==> HasPrefix(key, lit) && Glob(rest, key[|lit|..])
  {
    if lit == [] {
      assert lit + rest == rest && key[0..] == key;
    } else {
      assert (lit + rest)[1..] == lit[1..] + rest;
      if key != [] && key[0] == lit[0] {
        GlobLiteral(lit[1..], rest, key[1..]);
        assert lit == [lit[0]] + lit[1..];
        assert |lit| <= |key| ==> key[..|lit|] == [key[0]] + key[1..][..|lit| - 1];
        assert |lit| <= |key| ==> key[|lit|..] == key[1..][|lit| - 1..];
      }
    }
  }

  lemma GlobNoStar(pattern: string, key: string)
    requires Stars(pattern) == 0
    ensures Glob(pattern, key) <==> key == pattern
  {
    GlobLiteral(pattern, [], key);
    assert pattern + [] == pattern;
  }

  lemma {:induction false} GlobStarSuffix(suffix: string, key: string)
    requires Stars(suffix) == 0
    ensures Glob("*" + suffix, key) <==> HasSuffix(key, suffix)
    decreases |key|
  {
    assert ("*" + suffix)[1..] == suffix;
    GlobNoStar(suffix, key);
    if key == [] {
    } else {
      GlobStarSuffix(suffix, key[1..]);
      assert |suffix| < |key| ==> key[1..][|key| - 1 - |suffix|..] == key[|key| - |suffix|..];
    }
  }

  lemma GlobOneStar(pattern: string, key: string)
    requires Stars(pattern) == 1
    ensures Glob(pattern, key) <==>
            && |key| >= |Before(pattern)| + |After(pattern)|
            && HasPrefix(key, Before(pattern)) && HasSuffix(key, After(pattern))
  {
    var pre, suf := Before(pattern), After(pattern);
    SplitAtStar(pattern);
    assert pattern == pre + ("*" + suf);
    GlobLiteral(pre, "*" + suf, key);
    if HasPrefix(key, pre) {
      GlobStarSuffix(suf, key[|pre|..]);
      assert |key| >= |pre| + |suf| ==> key[|pre|..][|key| - |pre| - |suf|..] == key[|key| - |suf|..];
    }
  }

  /** With one star, wherever it stands, the source tests prefix and suffix separately. */
  lemma MatchOneStar(pattern: string, key: string)
    requires Stars(pattern) == 1
    ensures MatchPattern(key, pattern) <==> HasPrefix(key, Before(pattern)) && HasSuffix(key, After(pattern))
  {
    var pre, suf := Before(pattern), After(pattern);
    SplitAtStar(pattern);
    if HasSuffix(pattern, "*") {
      assert pattern[|pattern| - 1] == '*';
      if suf != [] {
        assert suf[|suf| - 1] == '*';
        StarIn(suf, |suf| - 1);
      }
      assert pattern[..|pattern| - 1] == pre;
      assert key[|key|..] == suf;
    } else if HasPrefix(pattern, "*") {
      assert pattern[1..] == suf && pre == [];
    }
  }

  // ---- Agreement ----

  /** Some text both ends the first string and begins the second. */
  ghost predicate Overlap(a: string, b: string) {
    exists t :: 1 <= t <= |a| && t <= |b| && a[|a| - t..] == b[..t]
  }

  /** Patterns the source matches as a star pattern is meant. */
  ghost predicate Understood(pattern: string) {
    || Stars(pattern) == 0
    || (Stars(pattern) == 1 && !Overlap(Before(pattern), After(pattern)))
  }

  function WithoutStars(p: string): string {
    if p == [] then [] else (if p[0] == '*' then [] else [p[0]]) + WithoutStars(p[1..])
  }

  lemma {:induction false} StarsMatchNothing(p: string)
    ensures Glob(p, WithoutStars(p)) && |WithoutStars(p)| + Stars(p) == |p|
    ensures forall i :: 0 <= i < |WithoutStars(p)| ==> WithoutStars(p)[i] != '*'
  {
    if p == [] {
    } else {
      StarsMatchNothing(p[1..]);
      if p[0] != '*' {
        assert WithoutStars(p)[1..] == WithoutStars(p[1..]);
      } else {
        assert WithoutStars(p) == WithoutStars(p[1..]);
      }
    }
  }

  lemma NoStarNoMatch(key: string, literal: string, i: nat)
    requires i < |literal| && literal[i] == '*'
    requires forall j :: 0 <= j < |key| ==> key[j] != '*'
    ensures !HasPrefix(key, literal) && !HasSuffix(key, literal)
  {
  }

  lemma {:induction false} FindStar(p: string) returns (i: nat)
    requires Stars(p) >= 1
    ensures i < |p| && p[i] == '*'
  {
    if p[0] == '*' {
      i := 0;
    } else {
      var j := FindStar(p[1..]);
      i := j + 1;
    }
  }

  lemma StarAtEnds(pattern: string)
    requires pattern != []
    ensures HasSuffix(pattern, "*") <==> pattern[|pattern| - 1] == '*'
    ensures HasPrefix(pattern, "*") <==> pattern[0] == '*'
  {
    assert pattern[|pattern| - 1..] == [pattern[|pattern| - 1]];
    assert pattern[..1] == [pattern[0]];
  }

  /** Character by character, the key begins with the first `n` of the pattern. */
  ghost predicate BeginsAs(key: string, pattern: string, n: nat)
    requires n <= |pattern|
  {
    |key| >= n && forall i :: 0 <= i < n ==> key[i] == pattern[i]
  }

  /** Character by character, the key ends with the pattern from its second on. */
  ghost predicate EndsAs(key: string, pattern: string) {
    |key| + 1 >= |pattern| && forall i :: 1 <= i < |pattern| ==> key[|key| - |pattern| + i] == pattern[i]
  }

  lemma SameText(key: string, pattern: string)
    requires pattern != []
    ensures HasPrefix(key, pattern[..|pattern| - 1]) <==> BeginsAs(key, pattern, |pattern| - 1)
    ensures HasSuffix(key, pattern[1..]) <==> EndsAs(key, pattern)
  {
    var n := |pattern| - 1;
    if HasSuffix(key, pattern[1..]) {
      forall i | 1 <= i < n + 1 ensures key[|key| - (n + 1) + i] == pattern[i] {
        assert pattern[1..][i - 1] == key[|key| - n..][i - 1];
      }
    }
    if EndsAs(key, pattern) {
      assert key[|key| - n..] == pattern[1..] by {
        forall j | 0 <= j < n ensures key[|key| - n..][j] == pattern[1..][j] {
          assert key[|key| - (n + 1) + (j + 1)] == pattern[j + 1];
        }
      }
    }
  }

  /**
   * With two stars or more the source takes all stars but one literally: a pattern that ends with a star
   * means keys that begin with the rest of it, one that only begins with a star means keys that end
   * with the rest, and any other means itself.
   */
  lemma ManyStarsMeaning(pattern: string, key: string)
    requires Stars(pattern) >= 2
    ensures var n := |pattern|;
            && n >= 2
            && (pattern[n - 1] == '*' ==>
                  (MatchPattern(key, pattern) <==> BeginsAs(key, pattern, n - 1)))
            && (pattern[n - 1] != '*' && pattern[0] == '*' ==>
                  (MatchPattern(key, pattern) <==> EndsAs(key, pattern)))
            && (pattern[n - 1] != '*' && pattern[0] != '*' ==> (MatchPattern(key, pattern) <==> key == pattern))
  {
    var n := |pattern|;
    StarsMatchNothing(pattern);
    StarAtEnds(pattern);
    SameText(key, pattern);
    hide HasPrefix, HasSuffix, BeginsAs, EndsAs, Glob, WithoutStars;
  }

  /** With two stars or more, the pattern's own text without its stars is missed. */
  lemma MissesWithManyStars(pattern: string)
    requires Stars(pattern) >= 2
    ensures Glob(pattern, WithoutStars(pattern)) && !MatchPattern(WithoutStars(pattern), pattern)
  {
    var key := WithoutStars(pattern);
    StarsMatchNothing(pattern);
    if HasSuffix(pattern, "*") {
      var literal := pattern[..|pattern| - 1];
      assert pattern == literal + "*";
      StarsSplit(literal, "*");
      var i := FindStar(literal);
      NoStarNoMatch(key, literal, i);
    } else if HasPrefix(pattern, "*") {
      var literal := pattern[1..];
      assert Stars(pattern) == 1 + Stars(literal);
      var i := FindStar(literal);
      NoStarNoMatch(key, literal, i);
    }
  }

  lemma NoStarMatches(pattern: string, key: string)
    requires Stars(pattern) == 0
    ensures MatchPattern(key, pattern) <==> key == pattern
  {
    if HasSuffix(pattern, "*") {
      StarIn(pattern, |pattern| - 1);
    } else if HasPrefix(pattern, "*") {
      StarIn(pattern, 0);
    }
  }

  lemma OverlapFromShortKey(pre: string, suf: string, key: string)
    requires HasPrefix(key, pre) && HasSuffix(key, suf) && |key| < |pre| + |suf|
    ensures Overlap(pre, suf)
  {
    var t := |pre| + |suf| - |key|;
    assert pre[|pre| - t..] == key[|key| - |suf|..|pre|];
    assert suf[..t] == key[|key| - |suf|..|pre|];
  }

  lemma ShortKeyFromOverlap(pre: string, suf: string) returns (key: string)
    requires Overlap(pre, suf)
    ensures HasPrefix(key, pre) && HasSuffix(key, suf) && |key| < |pre| + |suf|
  {
    var t :| 1 <= t <= |pre| && t <= |suf| && pre[|pre| - t..] == suf[..t];
    key := pre + suf[t..];
    assert pre == pre[..|pre| - t] + suf[..t];
    assert key == pre[..|pre| - t] + suf;
  }

  /** The matcher never misses a key of a pattern with at most one star. */
  lemma MatchesWhatIsMeant(pattern: string, key: string)
    requires Stars(pattern) <= 1 && Glob(pattern, key)
    ensures MatchPattern(key, pattern)
  {
    if Stars(pattern) == 0 {
      GlobNoStar(pattern, key);
      NoStarMatches(pattern, key);
    } else {
      GlobOneStar(pattern, key);
      MatchOneStar(pattern, key);
    }
  }

  /** It accepts more than is meant exactly for keys shorter than prefix and suffix together. */
  lemma AcceptsTooMuchIff(pattern: string, key: string)
    requires Stars(pattern) == 1 && MatchPattern(key, pattern)
    ensures !Glob(pattern, key) <==> |key| < |Before(pattern)| + |After(pattern)|
  {
    GlobOneStar(pattern, key);
    MatchOneStar(pattern, key);
  }

  lemma UnderstoodAgrees(pattern: string, key: string)
    requires Understood(pattern)
    ensures MatchPattern(key, pattern) <==> Glob(pattern, key)
  {
    if Stars(pattern) == 0 {
      GlobNoStar(pattern, key);
      NoStarMatches(pattern, key);
    } else {
      GlobOneStar(pattern, key);
      MatchOneStar(pattern, key);
      if MatchPattern(key, pattern) && |key| < |Before(pattern)| + |After(pattern)| {
        OverlapFromShortKey(Before(pattern), After(pattern), key);
      }
    }
  }

  lemma Misunderstood(pattern: string) returns (key: string)
    requires !Understood(pattern)
    ensures MatchPattern(key, pattern) != Glob(pattern, key)
  {
    if Stars(pattern) == 1 {
      key := ShortKeyFromOverlap(Before(pattern), After(pattern));
      GlobOneStar(pattern, key);
      MatchOneStar(pattern, key);
    } else {
      key := WithoutStars(pattern);
      MissesWithManyStars(pattern);
    }
  }

  /**
   * The matcher agrees with the meaning of the pattern on every key exactly for patterns
   * without star, and with one star whose two sides do not overlap (so always at an end).
   */
  lemma AgreesIff(pattern: string)
    ensures (forall key :: MatchPattern(key, pattern) <==> Glob(pattern, key)) <==> Understood(pattern)
    ensures Stars(pattern) == 1 && (HasPrefix(pattern, "*") || HasSuffix(pattern, "*")) ==> Understood(pattern)
  {
    if Understood(pattern) {
      forall key ensures MatchPattern(key, pattern) <==> Glob(pattern, key) {
        UnderstoodAgrees(pattern, key);
      }
    } else {
      var key := Misunderstood(pattern);
    }
    if Stars(pattern) == 1 {
      SplitAtStar(pattern);
      if HasSuffix(pattern, "*") && After(pattern) != [] {
        assert After(pattern)[|After(pattern)| - 1] == pattern[|pattern| - 1] == '*';
        StarIn(After(pattern), |After(pattern)| - 1);
      }
    }
  }
}

module MemoryClass {
  import opened Errors
  import opened Patterns

  class MemoryCache {
    var entries: map<string, string>
    var closed: bool

    constructor (entries: map<string, string>)
      ensures this.entries == entries && !closed
    {
      this.entries, closed := entries, false;
    }

    /** The pass of the iterator over all entries. */
    method Collect(pattern: string, readable: string -> bool) returns (keysToDelete: seq<string>)
      ensures forall k :: k in keysToDelete <==> k in entries && readable(k) && MatchPattern(k, pattern)
    {
      hide MatchPattern;
      keysToDelete := [];
      var todo := entries.Keys;
      while todo != {}
        invariant todo <= entries.Keys
        invariant forall k :: k in keysToDelete <==>
                    k in entries && k !in todo && readable(k) && MatchPattern(k, pattern)
        decreases |todo|
      {
        var key :| key in todo;
        todo := todo - {key};
        if readable(key) && MatchPattern(key, pattern) {
          keysToDelete := keysToDelete + [key];
        }
      }
    }

    /** The deletions, going on after one that fails. */
    method DeleteKeys(keysToDelete: seq<string>, deletable: string -> bool)
      modifies `entries
      ensures entries == map k | k in old(entries) && !(k in keysToDelete && deletable(k)) :: old(entries)[k]
    {
      for i := 0 to |keysToDelete|
        invariant entries == map k | k in old(entries) && !(k in keysToDelete[..i] && deletable(k)) :: old(entries)[k]
      {
        var key := keysToDelete[i];
        assert keysToDelete[..i + 1] == keysToDelete[..i] + [key];
        if deletable(key) {
          entries := entries - {key};
        }
      }
      assert keysToDelete[..|keysToDelete|] == keysToDelete;
    }

    /**
     * Removes what matches. `readable` and `deletable` tell which entries the iterator can
     * read and the cache can delete; the others stay.
     */
    method ClearByPattern(pattern: string, readable: string -> bool, deletable: string -> bool)
      returns (err: Option<Error>)
      modifies `entries
      ensures closed ==> err == Some(ManagerClosed) && entries == old(entries)
      ensures !closed ==> err == None
      ensures !closed ==>
                entries == map k | k in old(entries) && !(readable(k) && MatchPattern(k, pattern) && deletable(k))
                             :: old(entries)[k]
      ensures !closed && Understood(pattern) && (forall k :: k in old(entries) ==> readable(k) && deletable(k)) ==>
                entries == map k | k in old(entries) && !Glob(pattern, k) :: old(entries)[k]
    {
      if closed {
        return Some(ManagerClosed);
      }
      var keysToDelete := Collect(pattern, readable);
      DeleteKeys(keysToDelete, deletable);
      if Understood(pattern) {
        forall k: string ensures MatchPattern(k, pattern) <==> Glob(pattern, k) {
          UnderstoodAgrees(pattern, k);
        }
      }
      hide Glob, MatchPattern;
      return None;
    }
  }
}
