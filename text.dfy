/**
 * The string operations that field preparation relies on:
 *  - the "outside" rewrite of a conditional-logic reference, which removes
 *    one occurrence of a repeater's name as the pattern `P(?!.*P)` does;
 *  - `str_replace('__', '_', s)`, which collapses pairs of underscores;
 *  - `strtolower`, restricted to ASCII.
 * Names are assumed to hold no regular-expression metacharacters and no
 * newlines, so the pattern matches literally and `.` matches every character.
 */
module Text {
  import opened Values

  // ---------------------------------------------------------------------
  // Occurrences of a pattern and the match of `P(?!.*P)`
  // ---------------------------------------------------------------------

  /** `p` occurs in `s` starting at index `i`. */
  predicate OccursAt(s: string, p: string, i: nat) {
    i + |p| <= |s| && s[i..i + |p|] == p
  }

  /** No occurrence of `p` in `s` starts at index `k` or later: the lookahead `(?!.*P)` at `k`. */
  predicate NoOccurrenceFrom(s: string, p: string, k: nat) {
    forall j :: k <= j <= |s| - |p| ==> !OccursAt(s, p, j)
  }

  /** The pattern `P(?!.*P)` matches at `i`: `p` occurs there and never again after it ends. */
  predicate IsOutsideMatch(s: string, p: string, i: nat) {
    OccursAt(s, p, i) && NoOccurrenceFrom(s, p, i + |p|)
  }

  /** The leftmost match of `P(?!.*P)` at or after `from`, as a left-to-right regex scan finds it. */
  function FindOutsideMatch(s: string, p: string, from: nat): (r: Option<nat>)
    requires p != ""
    ensures r.Some? ==> from <= r.value && IsOutsideMatch(s, p, r.value)
    ensures r.Some? ==> forall k :: from <= k < r.value ==> !IsOutsideMatch(s, p, k)
    ensures r.None? ==> forall k :: from <= k ==> !IsOutsideMatch(s, p, k)
    decreases |s| - from
  {
    if from + |p| > |s| then None
    else if IsOutsideMatch(s, p, from) then Some(from)
    else FindOutsideMatch(s, p, from + 1)
  }

  /** Every occurrence of `p` is followed (at or after it) by a match of `P(?!.*P)`. */
  lemma {:induction false} OccurrenceLeadsToMatch(s: string, p: string, j: nat)
    requires p != "" && OccursAt(s, p, j)
    ensures exists i: nat :: j <= i && IsOutsideMatch(s, p, i)
    decreases |s| - j
  {
    if NoOccurrenceFrom(s, p, j + |p|) {
      assert IsOutsideMatch(s, p, j);
    } else {
      var j' :| j + |p| <= j' <= |s| - |p| && OccursAt(s, p, j');
      OccurrenceLeadsToMatch(s, p, j');
    }
  }

  /** The scan finds a match exactly when the pattern occurs at all. */
  lemma FindOutsideMatchIffOccurs(s: string, p: string)
    requires p != ""
    ensures FindOutsideMatch(s, p, 0).Some? <==> exists j: nat :: OccursAt(s, p, j)
  {
    if j: nat :| OccursAt(s, p, j) {
      OccurrenceLeadsToMatch(s, p, j);
    }
  }

  /**
   * `preg_replace("~P(?!.*P)~", '', s)`: the match, if any, is removed. A second
   * match cannot follow the first, since none starts after it ends.
   */
  function RemoveOutside(s: string, p: string): string
    requires p != ""
  {
    match FindOutsideMatch(s, p, 0)
    case None => s
    case Some(i) => s[..i] + s[i + |p|..]
  }

  /**
   * Without an occurrence of `p` nothing changes; otherwise exactly one
   * occurrence is removed: the leftmost one after whose end `p` never starts again.
   */
  lemma RemoveOutsideSpec(s: string, p: string)
    requires p != ""
    ensures (forall j: nat :: !OccursAt(s, p, j)) ==> RemoveOutside(s, p) == s
    ensures (exists j: nat :: OccursAt(s, p, j)) ==>
      |RemoveOutside(s, p)| == |s| - |p| &&
      exists i: nat :: IsOutsideMatch(s, p, i) && RemoveOutside(s, p) == s[..i] + s[i + |p|..] &&
        forall k: nat :: k < i ==> !IsOutsideMatch(s, p, k)
  {
    FindOutsideMatchIffOccurs(s, p);
  }

  /** A pattern that occurs exactly once is removed at that occurrence. */
  lemma RemoveUniqueOccurrence(s: string, p: string, i: nat)
    requires p != "" && OccursAt(s, p, i)
    requires forall j: nat :: OccursAt(s, p, j) ==> j == i
    ensures RemoveOutside(s, p) == s[..i] + s[i + |p|..]
  {
    assert IsOutsideMatch(s, p, i);
  }

  /**
   * When no two occurrences of `p` overlap, the removed occurrence is the last
   * one, which is what the comment beside the source promises.
   */
  lemma RemoveOutsideNonOverlapping(s: string, p: string, i: nat)
    requires p != ""
    requires forall a: nat, b: nat :: a < b && OccursAt(s, p, a) && OccursAt(s, p, b) ==> a + |p| <= b
    requires FindOutsideMatch(s, p, 0) == Some(i)
    ensures OccursAt(s, p, i) && RemoveOutside(s, p) == s[..i] + s[i + |p|..]
    ensures forall k: nat :: i < k ==> !OccursAt(s, p, k)
  {
  }

  /**
   * With overlapping occurrences the match is not the last occurrence: in
   * "ababa" the pattern "aba" occurs at 0 and at 2, the match is the one at 0
   * (nothing starts after index 3), so "ba" remains and not "ab".
   */
  lemma RemoveOutsideOverlapping()
    ensures OccursAt("ababa", "aba", 0) && OccursAt("ababa", "aba", 2)
    ensures RemoveOutside("ababa", "aba") == "ba"
    ensures "ababa"[..2] + "ababa"[5..] == "ab"
  {
    assert IsOutsideMatch("ababa", "aba", 0);
  }

  // ---------------------------------------------------------------------
  // str_replace('__', '_', s)
  // ---------------------------------------------------------------------

  /** `s` holds no two adjacent underscores. */
  predicate NoDoubleUnderscore(s: string) {
    forall j :: 0 <= j < |s| - 1 ==> !(s[j] == '_' && s[j + 1] == '_')
  }

  /** `s` holds no three adjacent underscores. */
  predicate NoTripleUnderscore(s: string) {
    forall j :: 0 <= j < |s| - 2 ==> !(s[j] == '_' && s[j + 1] == '_' && s[j + 2] == '_')
  }

  /** Left-to-right replacement of non-overlapping "__" by "_". */
  function CollapseDoubleUnderscore(s: string): string
  {
    if |s| >= 2 && s[0] == '_' && s[1] == '_' then "_" + CollapseDoubleUnderscore(s[2..])
    else if s == [] then []
    else [s[0]] + CollapseDoubleUnderscore(s[1..])
  }

  /** Collapsing never lengthens a string and keeps its first character. */
  lemma {:induction false} CollapseShape(s: string)
    ensures |CollapseDoubleUnderscore(s)| <= |s|
    ensures s != [] ==> CollapseDoubleUnderscore(s) != [] && CollapseDoubleUnderscore(s)[0] == s[0]
  {
    if |s| >= 2 && s[0] == '_' && s[1] == '_' {
      CollapseShape(s[2..]);
    } else if s != [] {
      CollapseShape(s[1..]);
    }
  }

  /** Collapsing leaves a string without double underscores unchanged. */
  lemma {:induction false} CollapseWithoutDouble(s: string)
    requires NoDoubleUnderscore(s)
    ensures CollapseDoubleUnderscore(s) == s
  {
    if s != [] {
      assert NoDoubleUnderscore(s[1..]) by {
        forall j | 0 <= j < |s[1..]| - 1 ensures !(s[1..][j] == '_' && s[1..][j + 1] == '_') {
          assert s[1..][j] == s[j + 1] && s[1..][j + 1] == s[j + 2];
        }
      }
      CollapseWithoutDouble(s[1..]);
    }
  }

  /**
   * A double underscore survives the collapse only where the input held three
   * in a row: "___" becomes "__", so the result is not free of "__" in general.
   */
  lemma {:induction false} CollapseRemovesDoubles(s: string)
    requires NoTripleUnderscore(s)
    ensures NoDoubleUnderscore(CollapseDoubleUnderscore(s))
  {
    if |s| >= 2 && s[0] == '_' && s[1] == '_' {
      var t := s[2..];
      assert NoTripleUnderscore(t) by {
        forall j | 0 <= j < |t| - 2 ensures !(t[j] == '_' && t[j + 1] == '_' && t[j + 2] == '_') {
          assert t[j] == s[j + 2] && t[j + 1] == s[j + 3] && t[j + 2] == s[j + 4];
        }
      }
      CollapseRemovesDoubles(t);
      CollapseShape(t);
      assert t != [] ==> t[0] == s[2] != '_';
    } else if s != [] {
      var t := s[1..];
      assert NoTripleUnderscore(t) by {
        forall j | 0 <= j < |t| - 2 ensures !(t[j] == '_' && t[j + 1] == '_' && t[j + 2] == '_') {
          assert t[j] == s[j + 1] && t[j + 1] == s[j + 2] && t[j + 2] == s[j + 3];
        }
      }
      CollapseRemovesDoubles(t);
      CollapseShape(t);
      assert s[0] == '_' && t != [] ==> t[0] != '_';
    }
  }

  /** "___" collapses to "__": the follow-up replacement is a single pass. */
  lemma CollapseTriple()
    ensures CollapseDoubleUnderscore("___") == "__"
  {
  }

  /** A leading pair collapses to one underscore. */
  lemma CollapsePair(t: string)
    ensures CollapseDoubleUnderscore("__" + t) == "_" + CollapseDoubleUnderscore(t)
  {
    assert ("__" + t)[2..] == t;
  }

  /** A leading character that does not start a pair is kept. */
  lemma CollapseSingle(c: char, t: string)
    requires c != '_' || t == [] || t[0] != '_'
    ensures CollapseDoubleUnderscore([c] + t) == [c] + CollapseDoubleUnderscore(t)
  {
    assert ([c] + t)[1..] == t;
  }

  /** No pair straddles the boundary after a character other than '_'. */
  lemma {:induction false} CollapseAppend(a: string, b: string)
    requires a == [] || a[|a| - 1] != '_'
    ensures CollapseDoubleUnderscore(a + b) == CollapseDoubleUnderscore(a) + CollapseDoubleUnderscore(b)
    decreases |a|, 1
  {
    if a == [] {
      assert a + b == b;
    } else if |a| >= 2 && a[0] == '_' && a[1] == '_' {
      CollapseAppendPair(a, b);
    } else {
      CollapseAppendSingle(a, b);
    }
  }

  /** `CollapseAppend` when `a` starts with a pair. */
  lemma {:induction false} CollapseAppendPair(a: string, b: string)
    requires |a| >= 2 && a[0] == '_' && a[1] == '_' && a[|a| - 1] != '_'
    ensures CollapseDoubleUnderscore(a + b) == CollapseDoubleUnderscore(a) + CollapseDoubleUnderscore(b)
    decreases |a|, 0
  {
    var rest := a[2..];
    var cr, cb := CollapseDoubleUnderscore(rest), CollapseDoubleUnderscore(b);
    assert CollapseDoubleUnderscore(a + b) == "_" + CollapseDoubleUnderscore(rest + b) by {
      assert a + b == "__" + (rest + b);
      CollapsePair(rest + b);
    }
    assert CollapseDoubleUnderscore(a) == "_" + cr by {
      assert a == "__" + rest;
      CollapsePair(rest);
    }
    CollapseAppend(rest, b);
    assert "_" + (cr + cb) == ("_" + cr) + cb;
  }

  /** `CollapseAppend` when the first character of `a` is kept on its own. */
  lemma {:induction false} CollapseAppendSingle(a: string, b: string)
    requires a != [] && a[|a| - 1] != '_'
    requires !(|a| >= 2 && a[0] == '_' && a[1] == '_')
    ensures CollapseDoubleUnderscore(a + b) == CollapseDoubleUnderscore(a) + CollapseDoubleUnderscore(b)
    decreases |a|, 0
  {
    var c, rest := a[0], a[1..];
    var cr, cb := CollapseDoubleUnderscore(rest), CollapseDoubleUnderscore(b);
    assert CollapseDoubleUnderscore(a + b) == [c] + CollapseDoubleUnderscore(rest + b) by {
      assert a + b == [c] + (rest + b);
      assert c == '_' ==> |a| >= 2 && (rest + b)[0] == a[1];
      CollapseSingle(c, rest + b);
    }
    assert CollapseDoubleUnderscore(a) == [c] + cr by {
      assert a == [c] + rest;
      assert c == '_' ==> |a| >= 2 && rest[0] == a[1];
      CollapseSingle(c, rest);
    }
    CollapseAppend(rest, b);
    assert [c] + (cr + cb) == ([c] + cr) + cb;
  }

  /** The three parts of `a + b + c` are its slices. */
  lemma SplitThree(a: string, b: string, c: string)
    ensures (a + b + c)[..|a|] == a
    ensures (a + b + c)[|a|..|a| + |b|] == b
    ensures (a + b + c)[|a| + |b|..] == c
  {
  }

  /** The only occurrence of `n` in `outer_n_x` is the one removed. */
  lemma RemoveOnlyName(outer: string, n: string, x: string)
    requires n != ""
    requires forall j: nat :: OccursAt(outer + "_" + n + "_" + x, n, j) ==> j == |outer| + 1
    ensures RemoveOutside(outer + "_" + n + "_" + x, n) == outer + ("__" + x)
  {
    var s := outer + "_" + n + "_" + x;
    SplitThree(outer + "_", n, "_" + x);
    assert (outer + "_") + n + ("_" + x) == s;
    RemoveUniqueOccurrence(s, n, |outer| + 1);
    assert (outer + "_") + ("_" + x) == outer + ("__" + x);
  }

  /**
   * Removing the only occurrence of `n` from `outer_n_x` and collapsing the
   * resulting "__" gives `outer_x`, when no other underscores meet.
   */
  lemma EscapeOneLevel(outer: string, n: string, x: string)
    requires n != ""
    requires forall j: nat :: OccursAt(outer + "_" + n + "_" + x, n, j) ==> j == |outer| + 1
    requires NoDoubleUnderscore(outer) && (outer == [] || outer[|outer| - 1] != '_')
    requires NoDoubleUnderscore(x) && (x == [] || x[0] != '_')
    ensures CollapseDoubleUnderscore(RemoveOutside(outer + "_" + n + "_" + x, n)) == outer + "_" + x
  {
    RemoveOnlyName(outer, n, x);
    CollapseJoin(outer, x);
  }

  /** `outer + "__" + x` collapses to `outer + "_" + x` when no other underscores meet. */
  lemma CollapseJoin(outer: string, x: string)
    requires NoDoubleUnderscore(outer) && (outer == [] || outer[|outer| - 1] != '_')
    requires NoDoubleUnderscore(x) && (x == [] || x[0] != '_')
    ensures CollapseDoubleUnderscore(outer + ("__" + x)) == outer + "_" + x
  {
    var y := "__" + x;
    assert y[2..] == x;
    CollapseWithoutDouble(x);
    assert CollapseDoubleUnderscore(y) == "_" + x;
    CollapseWithoutDouble(outer);
    CollapseAppend(outer, y);
    assert outer + ("_" + x) == outer + "_" + x;
  }

  // ---------------------------------------------------------------------
  // strtolower
  // ---------------------------------------------------------------------

  /** ASCII lower-casing of one character. */
  function LowerChar(c: char): char {
    if 'A' <= c <= 'Z' then (c as int + 32) as char else c
  }

  /** `strtolower` on ASCII text: every letter A-Z maps to a-z, everything else is kept. */
  function Lower(s: string): (r: string)
    ensures |r| == |s|
    ensures forall i :: 0 <= i < |s| ==> r[i] == LowerChar(s[i])
  {
    if s == [] then [] else [LowerChar(s[0])] + Lower(s[1..])
  }

  /** The result of `Lower` holds no upper-case letter, and lower-casing again changes nothing. */
  lemma LowerIsLower(s: string)
    ensures forall i :: 0 <= i < |s| ==> !('A' <= Lower(s)[i] <= 'Z')
    ensures Lower(Lower(s)) == Lower(s)
  {
  }
}
