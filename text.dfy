/**
 * The string operations the search filter and the facet lists rely on:
 * lower-casing (`toLowerCase`), substring search (`includes`) and the
 * code-unit order that `Array.prototype.sort` uses when no comparator is given.
 */
module Text {

  /** `toLowerCase` on one character; only the ASCII capitals change. */
  function LowerChar(c: char): char
  {
    if 'A' <= c <= 'Z' then (c as int + 32) as char else c
  }

  predicate IsLower(s: string)
  {
    forall i :: 0 <= i < |s| ==> !('A' <= s[i] <= 'Z')
  }

  /** `s.toLowerCase()`: the same length, every character lowered, no capital left. */
  function Lower(s: string): (r: string)
    ensures |r| == |s|
    ensures forall i :: 0 <= i < |s| ==> r[i] == LowerChar(s[i])
    ensures IsLower(r)
  {
    if s == [] then [] else [LowerChar(s[0])] + Lower(s[1..])
  }

  /** Lower-casing twice is lower-casing once. */
  lemma LowerIdempotent(s: string)
    ensures Lower(Lower(s)) == Lower(s)
  {
    assert forall i :: 0 <= i < |s| ==> Lower(Lower(s))[i] == Lower(s)[i];
  }

  /** `t` occurs in `s` starting at position `i`. */
  predicate OccursAt(s: string, t: string, i: nat)
  {
    i + |t| <= |s| && s[i..i + |t|] == t
  }

  /** `t` occurs somewhere in `s`. */
  ghost predicate Includes(s: string, t: string)
  {
    exists i: nat :: OccursAt(s, t, i)
  }

  /** `s.includes(t)`: true exactly when `t` occurs somewhere in `s`. */
  function Contains(s: string, t: string): (r: bool)
    ensures r == Includes(s, t)
    decreases |s|
  {
    if |t| <= |s| && s[..|t|] == t then
      assert OccursAt(s, t, 0);
      true
    else if s == [] then
      false
    else
      var rest := Contains(s[1..], t);
      assert forall i: nat :: OccursAt(s[1..], t, i) <==> OccursAt(s, t, i + 1) by {
        forall i: nat ensures OccursAt(s[1..], t, i) <==> OccursAt(s, t, i + 1) {
          if i + |t| <= |s[1..]| {
            assert s[1..][i..i + |t|] == s[i + 1..i + 1 + |t|];
          }
        }
      }
      assert rest ==> exists i: nat :: OccursAt(s, t, i) by {
        if rest {
          var i: nat :| OccursAt(s[1..], t, i);
          assert OccursAt(s, t, i + 1);
        }
      }
      assert (exists i: nat :: OccursAt(s, t, i)) ==> rest by {
        if exists i: nat :: OccursAt(s, t, i) {
          var i: nat :| OccursAt(s, t, i);
          assert i != 0;
          assert OccursAt(s[1..], t, i - 1);
        }
      }
      rest
  }

  /** Lower-casing both strings keeps every occurrence where it was. */
  lemma LowerKeepsOccurrence(s: string, t: string, i: nat)
    requires OccursAt(s, t, i)
    ensures OccursAt(Lower(s), Lower(t), i)
  {
    forall k | 0 <= k < |t| ensures Lower(s)[i..i + |t|][k] == Lower(t)[k] {
      assert s[i..i + |t|][k] == s[i + k] == t[k];
    }
  }

  /** Lower-casing a slice is taking the slice of the lower-cased text. */
  lemma LowerSlice(s: string, i: nat, j: nat)
    requires i <= j <= |s|
    ensures Lower(s[i..j]) == Lower(s)[i..j]
  {
  }

  /** `t` occurs in `s` at position `i` when capitals are not told apart. */
  predicate OccursIgnoringCaseAt(s: string, t: string, i: nat)
  {
    i + |t| <= |s| && Lower(s[i..i + |t|]) == Lower(t)
  }

  /** `t` occurs somewhere in `s` when capitals are not told apart. */
  ghost predicate IncludesIgnoringCase(s: string, t: string)
  {
    exists i: nat :: OccursIgnoringCaseAt(s, t, i)
  }

  /** An occurrence in the lower-cased texts is an occurrence with capitals ignored, at the same place. */
  lemma OccursLowerIff(s: string, t: string, i: nat)
    ensures OccursAt(Lower(s), Lower(t), i) <==> OccursIgnoringCaseAt(s, t, i)
  {
    if i + |t| <= |s| {
      LowerSlice(s, i, i + |t|);
    }
  }

  /**
   * `s.toLowerCase().includes(t.toLowerCase())` is a search that ignores
   * capitals: it is true exactly when some slice of `s` equals `t` once both
   * are lower-cased.
   */
  lemma ContainsLowerIff(s: string, t: string)
    ensures Contains(Lower(s), Lower(t)) <==> IncludesIgnoringCase(s, t)
  {
    if IncludesIgnoringCase(s, t) {
      var i: nat :| OccursIgnoringCaseAt(s, t, i);
      OccursLowerIff(s, t, i);
    }
    if Contains(Lower(s), Lower(t)) {
      var i: nat :| OccursAt(Lower(s), Lower(t), i);
      OccursLowerIff(s, t, i);
    }
  }

  /** Every string includes the empty string. */
  lemma ContainsEmpty(s: string)
    ensures Contains(s, "")
  {
    assert OccursAt(s, "", 0);
  }

  /**
   * The order of the default `sort()`: character by character, a proper
   * prefix before the longer string.
   */
  predicate StrLess(a: string, b: string)
    decreases |a|
  {
    |b| > 0 && (|a| == 0 || a[0] < b[0] || (a[0] == b[0] && StrLess(a[1..], b[1..])))
  }

  lemma {:induction false} StrLessIrreflexive(a: string)
    ensures !StrLess(a, a)
    decreases |a|
  {
    if |a| > 0 {
      StrLessIrreflexive(a[1..]);
    }
  }

  lemma {:induction false} StrLessTransitive(a: string, b: string, c: string)
    requires StrLess(a, b) && StrLess(b, c)
    ensures StrLess(a, c)
    decreases |a|
  {
    if |a| > 0 && a[0] == b[0] && b[0] == c[0] {
      StrLessTransitive(a[1..], b[1..], c[1..]);
    }
  }

  lemma {:induction false} StrLessTotal(a: string, b: string)
    requires a != b
    ensures StrLess(a, b) || StrLess(b, a)
    decreases |a|
  {
    if |a| > 0 && |b| > 0 && a[0] == b[0] {
      assert a == [a[0]] + a[1..] && b == [b[0]] + b[1..];
      StrLessTotal(a[1..], b[1..]);
    }
  }
}
