/** The Python string operations the prediction handler relies on, over
    `seq<char>`: the `in` operator (through a leftmost search), `str.endswith`,
    `str.lower` (on ASCII letters) and `str.replace` with its left-to-right,
    non-overlapping scan. */
module Text {
  import opened Options

  /** `p` is a prefix of `s` (`s.startswith(p)`). */
  predicate IsPrefix(p: string, s: string) {
    |p| <= |s| && s[..|p|] == p
  }

  /** `s.endswith(suffix)`: `s` is some text followed by `suffix`. */
  predicate EndsWith(s: string, suffix: string): (b: bool)
    ensures b <==> exists p :: s == p + suffix
  {
    var b := |suffix| <= |s| && s[|s| - |suffix|..] == suffix;
    assert b ==> s == s[..|s| - |suffix|] + suffix;
    b
  }

  /** `sub` occurs in `s` starting at index `i`. */
  ghost predicate OccursAt(s: string, sub: string, i: int) {
    0 <= i && i + |sub| <= |s| && s[i..i + |sub|] == sub
  }

  /** `sub` occurs somewhere in `s`. */
  ghost predicate Occurs(s: string, sub: string) {
    exists i :: OccursAt(s, sub, i)
  }

  /** No character of `w` is a character of `t`. */
  predicate Disjoint(w: string, t: string) {
    forall i :: 0 <= i < |w| ==> w[i] !in t
  }

  /** An occurrence at index 0 is a prefix. */
  lemma PrefixIsOccurrence(s: string, sub: string)
    ensures OccursAt(s, sub, 0) <==> IsPrefix(sub, s)
  {
    if |sub| <= |s| {
      assert s[0..|sub|] == s[..|sub|];
    }
  }

  /** An occurrence in `s` past its first character is an occurrence in
      `s[1..]`, one place earlier. */
  lemma OccursInTail(s: string, pat: string, i: int)
    requires |s| > 0 && i >= 1
    ensures OccursAt(s, pat, i) <==> OccursAt(s[1..], pat, i - 1)
  {
    if i + |pat| <= |s| {
      assert s[1..][i - 1..i - 1 + |pat|] == s[i..i + |pat|];
    }
  }

  /** `OccursInTail` at every index. */
  lemma OccursInTailEverywhere(s: string, pat: string)
    requires |s| > 0
    ensures forall i :: 1 <= i ==> (OccursAt(s, pat, i) <==> OccursAt(s[1..], pat, i - 1))
  {
    forall i | 1 <= i
      ensures OccursAt(s, pat, i) <==> OccursAt(s[1..], pat, i - 1)
    {
      OccursInTail(s, pat, i);
    }
  }

  /** The index of the leftmost occurrence of `sub` in `s`, if any: the
      search behind Python's `sub in s`. */
  function Find(s: string, sub: string): (r: Option<nat>)
    ensures r.Some? ==> OccursAt(s, sub, r.value)
    ensures r.Some? ==> forall i :: 0 <= i < r.value ==> !OccursAt(s, sub, i)
    ensures r.None? ==> forall i :: !OccursAt(s, sub, i)
    decreases |s|
  {
    PrefixIsOccurrence(s, sub);
    if IsPrefix(sub, s) then Some(0)
    else if |s| == 0 then None
    else
      OccursInTailEverywhere(s, sub);
      match Find(s[1..], sub)
      case Some(j) => Some(j + 1)
      case None => None
  }

  /** Python's `sub in s`. */
  function Contains(s: string, sub: string): (b: bool)
    ensures b <==> Occurs(s, sub)
  {
    Find(s, sub).Some?
  }

  /** `c.lower()` for one character; only `A`..`Z` change. */
  function LowerChar(c: char): char {
    if 'A' <= c <= 'Z' then (c as int + 32) as char else c
  }

  /** `s.lower()`, character by character: each upper-case ASCII letter
      becomes the same letter in lower case, and every other character is kept
      where it was. */
  function Lower(s: string): (r: string)
    ensures |r| == |s|
    ensures forall i :: 0 <= i < |s| && 'A' <= s[i] <= 'Z' ==>
              'a' <= r[i] <= 'z' && r[i] as int - 'a' as int == s[i] as int - 'A' as int
    ensures forall i :: 0 <= i < |r| ==> !('A' <= r[i] <= 'Z')
    ensures forall i :: 0 <= i < |s| && !('A' <= s[i] <= 'Z') ==> r[i] == s[i]
  {
    seq(|s|, i requires 0 <= i < |s| => LowerChar(s[i]))
  }

  /** `s.replace(pat, rep)` as Python computes it: the string is scanned from the
      left; at each position where `pat` starts, `rep` is emitted and the scan
      resumes after that occurrence, otherwise one character is copied. An
      empty `pat` puts `rep` before every character and at the end. */
  function Replace(s: string, pat: string, rep: string): (r: string)
    ensures |pat| > 0 && |rep| == |pat| ==> |r| == |s|
    ensures |pat| > 0 && |rep| >= |pat| ==> |r| >= |s|
    decreases |s|
  {
    if |pat| == 0 then Interleave(s, rep)
    else if IsPrefix(pat, s) then rep + Replace(s[|pat|..], pat, rep)
    else if |s| == 0 then []
    else [s[0]] + Replace(s[1..], pat, rep)
  }

  /** `s.replace("", rep)`. */
  function Interleave(s: string, rep: string): string
    decreases |s|
  {
    if |s| == 0 then rep else rep + [s[0]] + Interleave(s[1..], rep)
  }

  /** Away from an occurrence, replacement copies one character. */
  lemma ReplaceSkipsFirst(s: string, pat: string, rep: string)
    requires |pat| > 0 && |s| > 0 && !OccursAt(s, pat, 0)
    ensures Replace(s, pat, rep) == [s[0]] + Replace(s[1..], pat, rep)
  {
    PrefixIsOccurrence(s, pat);
  }

  /** Text without any occurrence of `pat` is copied unchanged. */
  lemma {:induction false} ReplaceWithoutOccurrence(s: string, pat: string, rep: string)
    requires |pat| > 0
    requires forall i :: !OccursAt(s, pat, i)
    ensures Replace(s, pat, rep) == s
    decreases |s|
  {
    if |s| > 0 {
      OccursInTailEverywhere(s, pat);
      assert forall i :: !OccursAt(s[1..], pat, i) by {
        forall i ensures !OccursAt(s[1..], pat, i) {
          assert !OccursAt(s, pat, i + 1);
        }
      }
      ReplaceWithoutOccurrence(s[1..], pat, rep);
      ReplaceSkipsFirst(s, pat, rep);
      assert s == [s[0]] + s[1..];
    }
  }

  /** The leftmost occurrence past the first character is the leftmost
      occurrence in the rest, one place earlier. */
  lemma LeftmostInTail(s: string, pat: string, i: int)
    requires |pat| > 0 && i >= 1 && OccursAt(s, pat, i)
    requires forall k :: 0 <= k < i ==> !OccursAt(s, pat, k)
    ensures OccursAt(s[1..], pat, i - 1)
    ensures forall k :: 0 <= k < i - 1 ==> !OccursAt(s[1..], pat, k)
  {
    OccursInTailEverywhere(s, pat);
    forall k | 0 <= k < i - 1 ensures !OccursAt(s[1..], pat, k) {
      assert !OccursAt(s, pat, k + 1);
    }
  }

  /** Putting the first character back in front of the rest's prefix. */
  lemma PrependFirst(s: string, i: int, rep: string, rest: string)
    requires 1 <= i <= |s|
    ensures [s[0]] + (s[1..][..i - 1] + rep + rest) == s[..i] + rep + rest
  {
    assert s[..i] == [s[0]] + s[1..][..i - 1];
  }

  /** At the leftmost occurrence `i` of `pat`, the text before it is kept and
      the occurrence becomes `rep`. */
  lemma {:induction false} ReplaceAtLeftmost(s: string, pat: string, rep: string, i: nat)
    requires |pat| > 0 && OccursAt(s, pat, i)
    requires forall k :: 0 <= k < i ==> !OccursAt(s, pat, k)
    ensures Replace(s, pat, rep) == s[..i] + rep + Replace(s[i + |pat|..], pat, rep)
    decreases i
  {
    if i == 0 {
      PrefixIsOccurrence(s, pat);
      assert s[..0] + rep == rep;
    } else {
      var t := s[1..];
      LeftmostInTail(s, pat, i);
      ReplaceAtLeftmost(t, pat, rep, i - 1);
      assert t[i - 1 + |pat|..] == s[i + |pat|..];
      ReplaceSkipsFirst(s, pat, rep);
      PrependFirst(s, i, rep, Replace(s[i + |pat|..], pat, rep));
    }
  }

  /** Replacement as Python's documentation describes it: with no occurrence
      of `pat` the text is returned as it is; otherwise the text before the
      leftmost occurrence is kept, `rep` is emitted, and replacement carries
      on with what follows that occurrence. */
  lemma ReplaceIsLeftmost(s: string, pat: string, rep: string)
    requires |pat| > 0
    ensures Find(s, pat).None? ==> Replace(s, pat, rep) == s
    ensures Find(s, pat).Some? ==>
              var i := Find(s, pat).value;
              i + |pat| <= |s| && Replace(s, pat, rep) == s[..i] + rep + Replace(s[i + |pat|..], pat, rep)
  {
    var r := Find(s, pat);
    if r.None? {
      ReplaceWithoutOccurrence(s, pat, rep);
    } else {
      ReplaceAtLeftmost(s, pat, rep, r.value);
    }
  }

  /** Replacing a single character by text that lacks it leaves none behind. */
  lemma {:induction false} ReplaceRemovesChar(s: string, c: char, rep: string)
    requires c !in rep
    ensures c !in Replace(s, [c], rep)
    decreases |s|
  {
    if IsPrefix([c], s) {
      ReplaceRemovesChar(s[1..], c, rep);
    } else if |s| > 0 {
      ReplaceRemovesChar(s[1..], c, rep);
    }
  }

  /** A stretch that cannot start an occurrence of `pat` is copied unchanged. */
  lemma {:induction false} ReplaceCopiesPrefix(t: string, u: string, pat: string, rep: string)
    requires |pat| > 0 && pat[0] !in t
    ensures Replace(t + u, pat, rep) == t + Replace(u, pat, rep)
    decreases |t|
  {
    if |t| > 0 {
      assert !IsPrefix(pat, t + u);
      assert (t + u)[1..] == t[1..] + u;
      ReplaceCopiesPrefix(t[1..], u, pat, rep);
    } else {
      assert t + u == u;
    }
  }

  /** An occurrence of `pat` at the front is replaced by `rep`. */
  lemma ReplaceAtFront(u: string, pat: string, rep: string)
    requires |pat| > 0
    ensures Replace(pat + u, pat, rep) == rep + Replace(u, pat, rep)
  {
    assert IsPrefix(pat, pat + u);
    assert (pat + u)[|pat|..] == u;
  }

  /** A character that does not start an occurrence of `pat` is copied. */
  lemma ReplaceCopiesChar(c: char, u: string, pat: string, rep: string)
    requires |pat| > 0 && !IsPrefix(pat, [c] + u)
    ensures Replace([c] + u, pat, rep) == [c] + Replace(u, pat, rep)
  {
    assert ([c] + u)[1..] == u;
  }

  /** Where `pat` starts the input, the result starts with `rep`: a stretch
      of the result that begins inside that copy begins with a character of
      `rep`. */
  lemma ReplaceStartsWithRep(s: string, pat: string, rep: string, w: string, i: int)
    requires |pat| > 0 && IsPrefix(pat, s)
    requires 0 <= i < |rep| && |w| > 0
    requires IsPrefix(w, Replace(s, pat, rep)[i..])
    ensures w[0] in rep
  {
    var r := Replace(s, pat, rep);
    assert r == rep + Replace(s[|pat|..], pat, rep);
    assert w[0] == r[i..][0] == rep[i];
  }

  /** A prefix of the result made of characters that `rep` lacks is a prefix
      of the input: replacement only inserts characters of `rep`. */
  lemma {:induction false} ReplaceKeepsPrefix(s: string, pat: string, rep: string, w: string)
    requires |pat| > 0 && |rep| > 0
    requires Disjoint(w, rep)
    requires IsPrefix(w, Replace(s, pat, rep))
    ensures IsPrefix(w, s)
    decreases |s|
  {
    var r := Replace(s, pat, rep);
    if |w| == 0 {
    } else if IsPrefix(pat, s) {
      ReplaceStartsWithRep(s, pat, rep, w, 0);
      assert false;
    } else if |s| == 0 {
    } else {
      var rest := Replace(s[1..], pat, rep);
      assert r == [s[0]] + rest;
      assert w[1..] == rest[..|w| - 1];
      assert IsPrefix(w[1..], rest);
      assert Disjoint(w[1..], rep) by {
        forall i | 0 <= i < |w| - 1 ensures w[1..][i] !in rep {
          assert w[1..][i] == w[i + 1];
        }
      }
      ReplaceKeepsPrefix(s[1..], pat, rep, w[1..]);
      assert w == [s[0]] + w[1..];
      assert s[..|w|] == [s[0]] + s[1..][..|w| - 1];
    }
  }

  /** An occurrence in a suffix is an occurrence in the whole. */
  lemma OccursInSuffix(s: string, d: nat, w: string, k: int)
    requires d <= |s| && OccursAt(s[d..], w, k)
    ensures OccursAt(s, w, k + d)
  {
    assert s[d..][k..k + |w|] == s[k + d..k + d + |w|];
  }

  /** An occurrence past a prefix `x` is an occurrence in what follows `x`. */
  lemma OccursPastPrefix(x: string, rest: string, w: string, i: int)
    requires OccursAt(x + rest, w, i) && i >= |x|
    ensures OccursAt(rest, w, i - |x|)
  {
    assert rest[i - |x|..i - |x| + |w|] == (x + rest)[i..i + |w|];
  }

  /** A stretch of the result made of characters that `rep` lacks already
      occurs in the input. */
  lemma {:induction false} ReplaceKeepsInfix(s: string, pat: string, rep: string, w: string, i: int)
    requires |pat| > 0 && |rep| > 0
    requires Disjoint(w, rep)
    requires OccursAt(Replace(s, pat, rep), w, i)
    ensures Occurs(s, w)
    decreases |s|
  {
    if |w| == 0 {
      assert OccursAt(s, w, 0);
    } else if IsPrefix(pat, s) {
      var rest := Replace(s[|pat|..], pat, rep);
      if i < |rep| {
        ReplaceStartsWithRep(s, pat, rep, w, i);
        assert false;
      }
      OccursPastPrefix(rep, rest, w, i);
      ReplaceKeepsInfix(s[|pat|..], pat, rep, w, i - |rep|);
      var k :| OccursAt(s[|pat|..], w, k);
      OccursInSuffix(s, |pat|, w, k);
    } else if |s| == 0 {
      assert false;
    } else if i == 0 {
      ReplaceKeepsPrefix(s, pat, rep, w);
      assert OccursAt(s, w, 0);
    } else {
      var rest := Replace(s[1..], pat, rep);
      OccursPastPrefix([s[0]], rest, w, i);
      ReplaceKeepsInfix(s[1..], pat, rep, w, i - 1);
      var k :| OccursAt(s[1..], w, k);
      OccursInSuffix(s, 1, w, k);
    }
  }

  /** Lowercasing keeps every occurrence, lowercased. */
  lemma LowerKeepsOccurrence(s: string, w: string, i: int)
    requires OccursAt(s, w, i)
    ensures OccursAt(Lower(s), Lower(w), i)
  {
    assert Lower(s)[i..i + |w|] == Lower(w);
  }
}
