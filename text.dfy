/** The Python string operations the core relies on: `in`, `find`, `replace`,
    `startswith` and `endswith`, over strings as sequences of characters. */
module Text {

  /** `p` occurs in `s` starting at index `i`. */
  predicate OccursAt(s: string, p: string, i: int) {
    0 <= i && i + |p| <= |s| && s[i..i + |p|] == p
  }

  /** Python's `s.find(p)`: the lowest index at which `p` occurs in `s`, or -1. */
  function Find(s: string, p: string): (r: int)
    ensures -1 <= r <= |s|
    ensures r >= 0 ==> OccursAt(s, p, r)
    ensures forall j :: (r < 0 || j < r) ==> !OccursAt(s, p, j)
  {
    FindFrom(s, p, 0)
  }

  function FindFrom(s: string, p: string, i: nat): (r: int)
    requires i <= |s|
    requires forall j :: j < i ==> !OccursAt(s, p, j)
    ensures -1 <= r <= |s|
    ensures r >= 0 ==> i <= r && OccursAt(s, p, r)
    ensures forall j :: (r < 0 || j < r) ==> !OccursAt(s, p, j)
    decreases |s| - i
  {
    if OccursAt(s, p, i) then i
    else if i == |s| then -1
    else FindFrom(s, p, i + 1)
  }

  /** Python's `p in s` for strings. */
  predicate Contains(s: string, p: string) {
    Find(s, p) >= 0
  }

  lemma ContainsIff(s: string, p: string, i: int)
    ensures OccursAt(s, p, i) ==> Contains(s, p)
    ensures Contains(s, p) ==> OccursAt(s, p, Find(s, p))
  {
  }

  lemma SliceOfSlice(s: string, a: nat, b: nat, c: nat, d: nat)
    requires a <= b <= |s| && c <= d <= b - a
    ensures s[a..b][c..d] == s[a + c..a + d]
  {
    assert |s[a..b][c..d]| == |s[a + c..a + d]|;
    forall x | 0 <= x < d - c ensures s[a..b][c..d][x] == s[a + c..a + d][x] {
    }
  }

  /** A text holding a character that `s` lacks does not occur in `s`. */
  lemma LacksCharacter(s: string, pat: string, j: nat)
    requires j < |pat| && pat[j] !in s
    ensures !Contains(s, pat)
  {
  }

  /** Python's `s.startswith(p)`. */
  predicate HasPrefix(s: string, p: string) {
    |p| <= |s| && s[..|p|] == p
  }

  /** Python's `s.endswith(p)`. */
  predicate HasSuffix(s: string, p: string) {
    |p| <= |s| && s[|s| - |p|..] == p
  }

  /** Python's `s.replace(p, r)` for a non-empty `p`: occurrences are found from the
      left, without overlap, and every one of them is replaced. */
  function ReplaceAll(s: string, p: string, r: string): string
    requires p != []
    decreases |s|
  {
    if |s| < |p| then s
    else if s[..|p|] == p then r + ReplaceAll(s[|p|..], p, r)
    else [s[0]] + ReplaceAll(s[1..], p, r)
  }

  lemma OccursInTail(s: string, p: string, j: int)
    requires |s| > 0
    ensures OccursAt(s[1..], p, j) <==> (j >= 0 && OccursAt(s, p, j + 1))
  {
    if j >= 0 && j + |p| <= |s| - 1 {
      assert s[1..][j..j + |p|] == s[j + 1..j + 1 + |p|];
    }
  }

  /** Replacing a text that does not occur changes nothing (the `if word in location`
      guard in front of `replace` is therefore redundant). */
  lemma {:induction false} ReplaceAllAbsent(s: string, p: string, r: string)
    requires p != []
    requires !Contains(s, p)
    ensures ReplaceAll(s, p, r) == s
    decreases |s|
  {
    if |s| >= |p| {
      assert !OccursAt(s, p, 0);
      forall j ensures !OccursAt(s[1..], p, j) {
        OccursInTail(s, p, j);
      }
      ContainsIff(s[1..], p, Find(s[1..], p));
      ReplaceAllAbsent(s[1..], p, r);
    }
  }

  lemma NoOccurrenceBeforeInTail(s: string, p: string, i: nat)
    requires |s| > 0 && i > 0
    requires forall j :: j < i ==> !OccursAt(s, p, j)
    ensures forall j :: j < i - 1 ==> !OccursAt(s[1..], p, j)
  {
    forall j | j < i - 1 ensures !OccursAt(s[1..], p, j) {
      OccursInTail(s, p, j);
    }
  }

  /** `replace` at a position where the text does not start keeps that
      character and carries on with the rest. */
  lemma ReplaceAllSkip(s: string, p: string, r: string)
    requires p != [] && |s| > 0
    requires !OccursAt(s, p, 0)
    ensures ReplaceAll(s, p, r) == [s[0]] + ReplaceAll(s[1..], p, r)
  {
    if |s| < |p| {
      ReplaceAllShort(s[1..], p, r);
      assert [s[0]] + s[1..] == s;
    }
  }

  lemma ReplaceAllShort(s: string, p: string, r: string)
    requires p != [] && |s| < |p|
    ensures ReplaceAll(s, p, r) == s
  {
  }

  /** `replace` keeps everything before the first occurrence, substitutes it, and
      carries on with the rest of the string. */
  lemma {:induction false} ReplaceAllAtFirst(s: string, p: string, r: string, i: nat)
    requires p != []
    requires OccursAt(s, p, i)
    requires forall j :: j < i ==> !OccursAt(s, p, j)
    ensures ReplaceAll(s, p, r) == s[..i] + r + ReplaceAll(s[i + |p|..], p, r)
    decreases i, 1
  {
    if i == 0 {
      ReplaceAllAtStart(s, p, r);
    } else {
      ReplaceAllAtFirstStep(s, p, r, i);
    }
  }

  /** The same, at the index `find` reports. */
  lemma ReplaceAllAtFind(s: string, p: string, r: string, i: nat)
    requires p != [] && Find(s, p) == i
    ensures ReplaceAll(s, p, r) == s[..i] + r + ReplaceAll(s[i + |p|..], p, r)
  {
    ReplaceAllAtFirst(s, p, r, i);
  }

  lemma ReplaceAllAtStart(s: string, p: string, r: string)
    requires p != [] && OccursAt(s, p, 0)
    ensures ReplaceAll(s, p, r) == s[..0] + r + ReplaceAll(s[|p|..], p, r)
  {
    assert s[..|p|] == p;
    assert s[..0] + r == r;
  }

  /** The inductive step of `ReplaceAllAtFirst`: the first character is kept
      and the tail has its first occurrence one position earlier. */
  lemma {:induction false} ReplaceAllAtFirstStep(s: string, p: string, r: string, i: nat)
    requires p != [] && 0 < i
    requires OccursAt(s, p, i)
    requires forall j :: j < i ==> !OccursAt(s, p, j)
    ensures ReplaceAll(s, p, r) == s[..i] + r + ReplaceAll(s[i + |p|..], p, r)
    decreases i, 0
  {
    var t := s[1..];
    var x := ReplaceAll(s[i + |p|..], p, r);
    assert ReplaceAll(t, p, r) == t[..i - 1] + r + x by {
      OccursInTail(s, p, i - 1);
      NoOccurrenceBeforeInTail(s, p, i);
      ReplaceAllAtFirst(t, p, r, i - 1);
      assert t[i - 1 + |p|..] == s[i + |p|..];
    }
    assert ReplaceAll(s, p, r) == [s[0]] + ReplaceAll(t, p, r) by {
      ReplaceAllSkip(s, p, r);
    }
    ConsJoin(s, i, r, x);
  }

  lemma ConsJoin(s: string, i: nat, r: string, x: string)
    requires 0 < i <= |s|
    ensures [s[0]] + (s[1..][..i - 1] + r + x) == s[..i] + r + x
  {
    assert [s[0]] + s[1..][..i - 1] == s[..i];
  }

  /** Replacing a text by itself leaves the string unchanged. */
  lemma {:induction false} ReplaceAllSelf(s: string, p: string)
    requires p != []
    ensures ReplaceAll(s, p, p) == s
    decreases |s|
  {
    if |s| >= |p| {
      if s[..|p|] == p {
        ReplaceAllSelf(s[|p|..], p);
        assert s[..|p|] + s[|p|..] == s;
      } else {
        ReplaceAllSelf(s[1..], p);
        assert [s[0]] + s[1..] == s;
      }
    }
  }
}
