/** konsave/funcs.py `strip_content`: removing whole groups, and single keys
    from every group, of a file in the KDE configuration-file format. Matching
    lines are first overwritten in place by a placeholder line, groups before
    keys, and the placeholder lines are filtered out at the end. */
module Strip {
  import opened Wrappers
  import opened Text

  /** The line written over everything that is stripped. */
  const Placeholder: string := "# stripped by konsave"

  /** `re.compile(r"^\[.*\].*").match(line)`: the line starts with `[` and a
      `]` follows before any line break (`.` does not match a newline). */
  predicate IsHeader(line: string) {
    |line| > 0 && line[0] == '[' && ClosesBeforeNewline(line, 1)
  }

  predicate ClosesBeforeNewline(line: string, i: nat)
    decreases |line| - i
  {
    i < |line| && line[i] != '\n' && (line[i] == ']' || ClosesBeforeNewline(line, i + 1))
  }

  /** The regular expression, read directly: a `]` at some position after the
      opening `[`, with no line break in between. */
  ghost predicate HeaderShape(line: string) {
    |line| > 0 && line[0] == '[' &&
    exists j :: 1 <= j < |line| && line[j] == ']' && NoNewlineBetween(line, 1, j)
  }

  ghost predicate NoNewlineBetween(line: string, i: nat, j: nat)
    requires i <= j <= |line|
  {
    forall x :: i <= x < j ==> line[x] != '\n'
  }

  lemma {:induction false} ClosesBeforeNewlineIff(line: string, i: nat)
    requires 1 <= i <= |line|
    ensures ClosesBeforeNewline(line, i)
        <==> exists j :: i <= j < |line| && line[j] == ']' && NoNewlineBetween(line, i, j)
    decreases |line| - i
  {
    if i < |line| {
      ClosesBeforeNewlineIff(line, i + 1);
      if ClosesBeforeNewline(line, i) && line[i] != ']' {
        var j :| i + 1 <= j < |line| && line[j] == ']' && NoNewlineBetween(line, i + 1, j);
        assert NoNewlineBetween(line, i, j);
      }
      if !ClosesBeforeNewline(line, i) {
        forall j | i <= j < |line| && line[j] == ']' ensures !NoNewlineBetween(line, i, j) {
          if j > i && line[i] != '\n' {
            assert !NoNewlineBetween(line, i + 1, j);
          }
        }
      }
    }
  }

  /** The recogniser accepts exactly the lines the regular expression matches. */
  lemma IsHeaderIff(line: string)
    ensures IsHeader(line) <==> HeaderShape(line)
  {
    if |line| > 0 {
      ClosesBeforeNewlineIff(line, 1);
    }
  }

  /** The text `[g]` a line must contain to belong to group `g`. */
  function GroupPattern(g: string): string {
    "[" + g + "]"
  }

  /** The text `k=` a line must contain to hold key `k`. */
  function KeyPattern(k: string): string {
    k + "="
  }

  /** `[line for line in content if pat in line]`. */
  function LinesContaining(c: seq<string>, pat: string): (r: seq<string>)
    ensures |r| <= |c|
    ensures forall i :: 0 <= i < |r| ==> Contains(r[i], pat)
    ensures r == [] <==> forall i :: 0 <= i < |c| ==> !Contains(c[i], pat)
  {
    if c == [] then []
    else (if Contains(c[0], pat) then [c[0]] else []) + LinesContaining(c[1..], pat)
  }

  /** The snapshot holds each line of the file at most as often as the file does. */
  lemma {:induction false} LinesContainingWithin(c: seq<string>, pat: string)
    ensures multiset(LinesContaining(c, pat)) <= multiset(c)
    decreases |c|
  {
    if c != [] {
      assert c == [c[0]] + c[1..];
      LinesContainingWithin(c[1..], pat);
    }
  }

  /** The snapshot keeps every line holding the pattern, as often as the file
      holds it, and no other line. */
  lemma {:induction false} LinesContainingCounts(c: seq<string>, pat: string)
    ensures forall x :: multiset(LinesContaining(c, pat))[x] == if Contains(x, pat) then multiset(c)[x] else 0
    decreases |c|
  {
    if c != [] {
      assert c == [c[0]] + c[1..];
      LinesContainingCounts(c[1..], pat);
    }
  }

  /** `list.index(x)`: the first position holding `x`; `None` stands for the
      ValueError raised when there is none. */
  function IndexOf(c: seq<string>, x: string): (r: Option<nat>)
    ensures r.None? <==> x !in c
    ensures r.Some? ==> r.value < |c| && c[r.value] == x
    ensures r.Some? ==> forall j :: 0 <= j < r.value ==> c[j] != x
  {
    IndexFrom(c, x, 0)
  }

  function IndexFrom(c: seq<string>, x: string, i: nat): (r: Option<nat>)
    requires i <= |c|
    requires forall j :: 0 <= j < i ==> c[j] != x
    ensures r.None? <==> x !in c
    ensures r.Some? ==> i <= r.value < |c| && c[r.value] == x
    ensures r.Some? ==> forall j :: 0 <= j < r.value ==> c[j] != x
    decreases |c| - i
  {
    if i == |c| then None
    else if c[i] == x then Some(i)
    else IndexFrom(c, x, i + 1)
  }

  /** The scan after a group header: from `i` on, every line is overwritten
      until a header line or the end of the file. */
  function ScanFrom(c: seq<string>, i: nat): (r: seq<string>)
    decreases |c| - i
  {
    if i >= |c| || IsHeader(c[i]) then c
    else ScanFrom(c[i := Placeholder], i + 1)
  }

  /** The position where a scan from `i` stops: the first header at or after
      `i`, or the end of the file. */
  function NextHeader(c: seq<string>, i: nat): (e: nat)
    requires i <= |c|
    ensures i <= e <= |c|
    ensures forall j :: i <= j < e ==> !IsHeader(c[j])
    ensures e < |c| ==> IsHeader(c[e])
    decreases |c| - i
  {
    if i == |c| || IsHeader(c[i]) then i else NextHeader(c, i + 1)
  }

  function Placeholders(n: nat): (r: seq<string>)
    ensures |r| == n && forall j :: 0 <= j < n ==> r[j] == Placeholder
  {
    seq(n, _ => Placeholder)
  }

  /** A scan keeps the lines before `i`, overwrites the lines up to the next
      header, and keeps that header and everything after it. */
  lemma {:induction false} ScanFromShape(c: seq<string>, i: nat)
    requires i <= |c|
    ensures ScanFrom(c, i) == c[..i] + Placeholders(NextHeader(c, i) - i) + c[NextHeader(c, i)..]
    decreases |c| - i
  {
    if i < |c| && !IsHeader(c[i]) {
      var d := c[i := Placeholder];
      var e := NextHeader(c, i);
      ScanFromShape(d, i + 1);
      NextHeaderUpdate(c, i, i + 1);
      assert NextHeader(d, i + 1) == e;
      assert ScanFrom(c, i) == ScanFrom(d, i + 1);
      ScanShapeJoin(c, i, e);
    } else {
      assert c[..i] + c[i..] == c;
    }
  }

  /** One overwritten line in front of a run of placeholders. */
  lemma ScanShapeJoin(c: seq<string>, i: nat, e: nat)
    requires i < e <= |c|
    ensures c[i := Placeholder][..i + 1] + Placeholders(e - (i + 1)) + c[i := Placeholder][e..]
            == c[..i] + Placeholders(e - i) + c[e..]
  {
    var d := c[i := Placeholder];
    assert d[..i + 1] == c[..i] + [Placeholder];
    assert d[e..] == c[e..];
    assert [Placeholder] + Placeholders(e - (i + 1)) == Placeholders(e - i);
  }

  lemma {:induction false} NextHeaderUpdate(c: seq<string>, i: nat, k: nat)
    requires i < k <= |c|
    ensures NextHeader(c[i := Placeholder], k) == NextHeader(c, k)
    decreases |c| - k
  {
    if k < |c| && !IsHeader(c[k]) {
      NextHeaderUpdate(c, i, k + 1);
    }
  }

  /** The group pass for one group: every line of the snapshot is looked up
      by value, overwritten, and the lines after it scanned. */
  function StripGroupLines(c: seq<string>, ls: seq<string>): (r: Result<seq<string>, Error>)
    decreases |ls|
  {
    if ls == [] then Success(c)
    else match IndexOf(c, ls[0])
      case None => Failure(ValueError)
      case Some(idx) => StripGroupLines(ScanFrom(c[idx := Placeholder], idx), ls[1..])
  }

  /** `strip_groups`: the groups one after the other, each with a snapshot of
      the lines that mention it taken before any of them is overwritten. */
  function StripGroups(c: seq<string>, gs: seq<string>): (r: Result<seq<string>, Error>)
    decreases |gs|
  {
    if gs == [] then Success(c)
    else
      var step := StripGroupLines(c, LinesContaining(c, GroupPattern(gs[0])));
      if step.Failure? then step else StripGroups(step.value, gs[1..])
  }

  /** The key pass for one key: every line of the snapshot is looked up by
      value and overwritten. */
  function StripKeyLines(c: seq<string>, ls: seq<string>): (r: Result<seq<string>, Error>)
    decreases |ls|
  {
    if ls == [] then Success(c)
    else match IndexOf(c, ls[0])
      case None => Failure(ValueError)
      case Some(idx) => StripKeyLines(c[idx := Placeholder], ls[1..])
  }

  /** `strip_keys`: the keys one after the other. */
  function StripKeys(c: seq<string>, ks: seq<string>): (r: Result<seq<string>, Error>)
    decreases |ks|
  {
    if ks == [] then Success(c)
    else
      var step := StripKeyLines(c, LinesContaining(c, KeyPattern(ks[0])));
      if step.Failure? then step else StripKeys(step.value, ks[1..])
  }

  /** `filter(lambda x: x != placeholder, content)`. */
  function RemovePlaceholders(c: seq<string>): seq<string>
  {
    if c == [] then []
    else
      var init := RemovePlaceholders(c[..|c| - 1]);
      if c[|c| - 1] == Placeholder then init else init + [c[|c| - 1]]
  }

  /** The filter drops exactly the placeholder lines and keeps every other
      line as often as it occurs. */
  lemma {:induction false} RemovePlaceholdersCounts(c: seq<string>)
    ensures multiset(RemovePlaceholders(c)) == multiset(c)[Placeholder := 0]
    ensures Placeholder !in RemovePlaceholders(c)
    ensures |RemovePlaceholders(c)| == |c| - multiset(c)[Placeholder]
    decreases |c|
  {
    if c != [] {
      var init := c[..|c| - 1];
      var x := c[|c| - 1];
      assert c == init + [x];
      RemovePlaceholdersCounts(init);
      assert multiset(c) == multiset(init) + multiset{x};
      if x != Placeholder {
        assert multiset(RemovePlaceholders(c)) == multiset(RemovePlaceholders(init)) + multiset{x};
      }
    }
  }

  /** The whole of `strip_content` on the lines of the file. */
  function Stripped(lines: seq<string>, gs: seq<string>, ks: seq<string>): Result<seq<string>, Error> {
    var afterGroups :- StripGroups(lines, gs);
    var afterKeys :- StripKeys(afterGroups, ks);
    Success(RemovePlaceholders(afterKeys))
  }

  // ---------------------------------------------------------------------------
  // The in-place rewrite

  /** The scan loop of `strip_groups`: from `start` on, lines are overwritten
      until a header line (the `break`) or the end of the file. */
  method ScanInPlace(content: array<string>, start: nat)
    modifies content
    ensures content[..] == ScanFrom(old(content[..]), start)
  {
    ghost var scanned := ScanFrom(content[..], start);
    var line := start;
    while line < content.Length
      invariant ScanFrom(content[..], line) == scanned
    {
      if IsHeader(content[line]) {
        break;
      }
      content[line] := Placeholder;
      line := line + 1;
    }
  }

  /** The inner loop of `strip_groups` over one group's snapshot of lines. */
  method StripGroupLinesInPlace(content: array<string>, groupLines: seq<string>) returns (failed: bool)
    modifies content
    ensures failed <==> StripGroupLines(old(content[..]), groupLines).Failure?
    ensures !failed ==> StripGroupLines(old(content[..]), groupLines) == Success(content[..])
  {
    ghost var target := StripGroupLines(content[..], groupLines);
    var li := 0;
    while li < |groupLines|
      invariant 0 <= li <= |groupLines|
      invariant target == StripGroupLines(content[..], groupLines[li..])
    {
      var found := IndexOf(content[..], groupLines[li]);
      if found.None? {
        return true;
      }
      assert groupLines[li..][1..] == groupLines[li + 1..];
      content[found.value] := Placeholder;
      ScanInPlace(content, found.value);
      li := li + 1;
    }
    return false;
  }

  /** `strip_groups` on the file's lines held in an array. On success the
      array holds the result of the group pass; the only failure is the
      ValueError of `list.index`. */
  method StripGroupsInPlace(content: array<string>, groups: seq<string>) returns (failed: bool)
    modifies content
    ensures failed <==> StripGroups(old(content[..]), groups).Failure?
    ensures failed ==> StripGroups(old(content[..]), groups) == Failure(ValueError)
    ensures !failed ==> StripGroups(old(content[..]), groups) == Success(content[..])
  {
    ghost var target := StripGroups(content[..], groups);
    var gi := 0;
    while gi < |groups|
      invariant 0 <= gi <= |groups|
      invariant target == StripGroups(content[..], groups[gi..])
    {
      var groupLines := LinesContaining(content[..], GroupPattern(groups[gi]));
      assert groups[gi..][1..] == groups[gi + 1..];
      ghost var before := content[..];
      failed := StripGroupLinesInPlace(content, groupLines);
      if failed {
        GroupLinesFailWithValueError(before, groupLines);
        return;
      }
      gi := gi + 1;
    }
    return false;
  }

  lemma {:induction false} GroupLinesFailWithValueError(c: seq<string>, ls: seq<string>)
    ensures StripGroupLines(c, ls).Failure? ==> StripGroupLines(c, ls) == Failure(ValueError)
    decreases |ls|
  {
    if ls != [] && IndexOf(c, ls[0]).Some? {
      GroupLinesFailWithValueError(ScanFrom(c[IndexOf(c, ls[0]).value := Placeholder], IndexOf(c, ls[0]).value), ls[1..]);
    }
  }

  /** `strip_keys` on the file's lines held in an array. */
  method StripKeysInPlace(content: array<string>, keys: seq<string>) returns (failed: bool)
    modifies content
    ensures failed <==> StripKeys(old(content[..]), keys).Failure?
    ensures failed ==> StripKeys(old(content[..]), keys) == Failure(ValueError)
    ensures !failed ==> StripKeys(old(content[..]), keys) == Success(content[..])
  {
    ghost var target := StripKeys(content[..], keys);
    var ki := 0;
    while ki < |keys|
      invariant 0 <= ki <= |keys|
      invariant target == StripKeys(content[..], keys[ki..])
    {
      var keyLines := LinesContaining(content[..], KeyPattern(keys[ki]));
      assert keys[ki..][1..] == keys[ki + 1..];
      var li := 0;
      while li < |keyLines|
        invariant 0 <= li <= |keyLines|
        invariant var step := StripKeyLines(content[..], keyLines[li..]);
                  target == if step.Failure? then step else StripKeys(step.value, keys[ki + 1..])
      {
        var found := IndexOf(content[..], keyLines[li]);
        if found.None? {
          return true;
        }
        assert keyLines[li..][1..] == keyLines[li + 1..];
        content[found.value] := Placeholder;
        li := li + 1;
      }
      ki := ki + 1;
    }
    return false;
  }

  /** `strip_content` on the lines of a file: the result is the stripping
      specified by `Stripped`. */
  method StripContent(lines: seq<string>, groups: seq<string>, keys: seq<string>)
    returns (r: Result<seq<string>, Error>)
    ensures r == Stripped(lines, groups, keys)
  {
    var content := new string[|lines|](i requires 0 <= i < |lines| => lines[i]);
    assert content[..] == lines;
    var failed := StripGroupsInPlace(content, groups);
    if failed {
      return Failure(ValueError);
    }
    failed := StripKeysInPlace(content, keys);
    if failed {
      return Failure(ValueError);
    }
    r := Success(RemovePlaceholders(content[..]));
  }

  // ---------------------------------------------------------------------------
  // What stripping guarantees

  /** `r` is `c` with some lines overwritten by the placeholder. */
  predicate Overwrites(c: seq<string>, r: seq<string>) {
    |r| == |c| && forall i :: 0 <= i < |c| ==> r[i] == c[i] || r[i] == Placeholder
  }

  /** The placeholder is not a header line: it starts with `#`. */
  lemma PlaceholderIsNoHeader()
    ensures !IsHeader(Placeholder)
  {
  }

  /** The placeholder holds no `[` and no `=`, so it never contains a group
      pattern or a key pattern. */
  lemma {:induction false} PlaceholderLacksPatterns(g: string, k: string)
    ensures !Contains(Placeholder, GroupPattern(g))
    ensures !Contains(Placeholder, KeyPattern(k))
  {
    LacksCharacter(Placeholder, GroupPattern(g), 0);
    LacksCharacter(Placeholder, KeyPattern(k), |k|);
  }

  /** A scan only writes placeholders. */
  lemma ScanOverwrites(c: seq<string>, i: nat)
    requires i <= |c|
    ensures Overwrites(c, ScanFrom(c, i))
  {
    ScanFromShape(c, i);
  }

  /** The step of a group pass: the line found by `list.index` and every line
      after it up to, not including, the next header are overwritten; the
      rest of the file is unchanged. */
  lemma GroupStepShape(c: seq<string>, idx: nat)
    requires idx < |c|
    ensures var e := NextHeader(c, idx + 1);
            ScanFrom(c[idx := Placeholder], idx) == c[..idx] + Placeholders(e - idx) + c[e..]
  {
    var d := c[idx := Placeholder];
    ScanFromShape(d, idx);
    NextHeaderUpdate(c, idx, idx + 1);
    assert NextHeader(d, idx) == NextHeader(d, idx + 1);
    assert d[..idx] == c[..idx];
    assert d[NextHeader(c, idx + 1)..] == c[NextHeader(c, idx + 1)..];
  }

  lemma {:induction false} StripGroupLinesOverwrites(c: seq<string>, ls: seq<string>)
    ensures StripGroupLines(c, ls).Success? ==> Overwrites(c, StripGroupLines(c, ls).value)
    decreases |ls|
  {
    if ls != [] && IndexOf(c, ls[0]).Some? {
      var idx := IndexOf(c, ls[0]).value;
      ScanOverwrites(c[idx := Placeholder], idx);
      StripGroupLinesOverwrites(ScanFrom(c[idx := Placeholder], idx), ls[1..]);
    }
  }

  lemma {:induction false} StripGroupsOverwrites(c: seq<string>, gs: seq<string>)
    ensures StripGroups(c, gs).Success? ==> Overwrites(c, StripGroups(c, gs).value)
    decreases |gs|
  {
    if gs != [] {
      var ls := LinesContaining(c, GroupPattern(gs[0]));
      StripGroupLinesOverwrites(c, ls);
      if StripGroupLines(c, ls).Success? {
        StripGroupsOverwrites(StripGroupLines(c, ls).value, gs[1..]);
      }
    }
  }

  lemma {:induction false} StripKeyLinesOverwrites(c: seq<string>, ls: seq<string>)
    ensures StripKeyLines(c, ls).Success? ==> Overwrites(c, StripKeyLines(c, ls).value)
    decreases |ls|
  {
    if ls != [] && IndexOf(c, ls[0]).Some? {
      StripKeyLinesOverwrites(c[IndexOf(c, ls[0]).value := Placeholder], ls[1..]);
    }
  }

  lemma {:induction false} StripKeysOverwrites(c: seq<string>, ks: seq<string>)
    ensures StripKeys(c, ks).Success? ==> Overwrites(c, StripKeys(c, ks).value)
    decreases |ks|
  {
    if ks != [] {
      var ls := LinesContaining(c, KeyPattern(ks[0]));
      StripKeyLinesOverwrites(c, ls);
      if StripKeyLines(c, ls).Success? {
        StripKeysOverwrites(StripKeyLines(c, ls).value, ks[1..]);
      }
    }
  }

  /** Overwriting a line with the placeholder removes it from the lines that
      contain `pat` when it was there, and adds nothing. */
  lemma {:induction false} CountAfterOverwrite(c: seq<string>, i: nat, pat: string)
    requires i < |c| && !Contains(Placeholder, pat)
    ensures |LinesContaining(c[i := Placeholder], pat)|
            == |LinesContaining(c, pat)| - (if Contains(c[i], pat) then 1 else 0)
    decreases |c|
  {
    if i > 0 {
      assert c[i := Placeholder][1..] == c[1..][i - 1 := Placeholder];
      CountAfterOverwrite(c[1..], i - 1, pat);
    }
  }

  /** Overwriting never adds a line that contains `pat`. */
  lemma {:induction false} CountOverwrites(c: seq<string>, r: seq<string>, pat: string)
    requires Overwrites(c, r) && !Contains(Placeholder, pat)
    ensures |LinesContaining(r, pat)| <= |LinesContaining(c, pat)|
    decreases |c|
  {
    if c != [] {
      assert Overwrites(c[1..], r[1..]);
      CountOverwrites(c[1..], r[1..], pat);
    }
  }

  /** Each step of a group pass overwrites at least the line it found, so the
      snapshot, one entry per line that contained `[g]`, clears them all. */
  lemma {:induction false} StripGroupLinesClears(c: seq<string>, ls: seq<string>, pat: string)
    requires !Contains(Placeholder, pat)
    requires forall i :: 0 <= i < |ls| ==> Contains(ls[i], pat)
    requires |LinesContaining(c, pat)| <= |ls|
    requires StripGroupLines(c, ls).Success?
    ensures LinesContaining(StripGroupLines(c, ls).value, pat) == []
    decreases |ls|
  {
    if ls != [] {
      var idx := IndexOf(c, ls[0]).value;
      var d := c[idx := Placeholder];
      CountAfterOverwrite(c, idx, pat);
      ScanOverwrites(d, idx);
      CountOverwrites(d, ScanFrom(d, idx), pat);
      StripGroupLinesClears(ScanFrom(d, idx), ls[1..], pat);
    }
  }

  lemma {:induction false} StripKeyLinesClears(c: seq<string>, ls: seq<string>, pat: string)
    requires !Contains(Placeholder, pat)
    requires forall i :: 0 <= i < |ls| ==> Contains(ls[i], pat)
    requires |LinesContaining(c, pat)| <= |ls|
    requires StripKeyLines(c, ls).Success?
    ensures LinesContaining(StripKeyLines(c, ls).value, pat) == []
    decreases |ls|
  {
    if ls != [] {
      var idx := IndexOf(c, ls[0]).value;
      CountAfterOverwrite(c, idx, pat);
      StripKeyLinesClears(c[idx := Placeholder], ls[1..], pat);
    }
  }

  /** After a successful group pass no line contains `[g]` for a listed `g`. */
  lemma {:induction false} StripGroupsClears(c: seq<string>, gs: seq<string>)
    requires StripGroups(c, gs).Success?
    ensures forall g, i :: g in gs && 0 <= i < |StripGroups(c, gs).value| ==>
              !Contains(StripGroups(c, gs).value[i], GroupPattern(g))
    decreases |gs|
  {
    if gs != [] {
      var ls := LinesContaining(c, GroupPattern(gs[0]));
      var step := StripGroupLines(c, ls).value;
      var r := StripGroups(c, gs).value;
      PlaceholderLacksPatterns(gs[0], "");
      StripGroupLinesClears(c, ls, GroupPattern(gs[0]));
      StripGroupsClears(step, gs[1..]);
      StripGroupsOverwrites(step, gs[1..]);
      CountOverwrites(step, r, GroupPattern(gs[0]));
      assert LinesContaining(r, GroupPattern(gs[0])) == [];
      forall g, i | g in gs && 0 <= i < |r| ensures !Contains(r[i], GroupPattern(g)) {
        if g != gs[0] {
          assert g in gs[1..];
        }
      }
    }
  }

  /** After a successful key pass no line contains `k=` for a listed `k`, and
      overwriting leaves lines that held no `[g]` without one. */
  lemma {:induction false} StripKeysClears(c: seq<string>, ks: seq<string>)
    requires StripKeys(c, ks).Success?
    ensures forall k, i :: k in ks && 0 <= i < |StripKeys(c, ks).value| ==>
              !Contains(StripKeys(c, ks).value[i], KeyPattern(k))
    decreases |ks|
  {
    if ks != [] {
      var ls := LinesContaining(c, KeyPattern(ks[0]));
      var step := StripKeyLines(c, ls).value;
      var r := StripKeys(c, ks).value;
      PlaceholderLacksPatterns("", ks[0]);
      StripKeyLinesClears(c, ls, KeyPattern(ks[0]));
      StripKeysClears(step, ks[1..]);
      StripKeysOverwrites(step, ks[1..]);
      CountOverwrites(step, r, KeyPattern(ks[0]));
      assert LinesContaining(r, KeyPattern(ks[0])) == [];
      forall k, i | k in ks && 0 <= i < |r| ensures !Contains(r[i], KeyPattern(k)) {
        if k != ks[0] {
          assert k in ks[1..];
        }
      }
    }
  }

  /** The snapshot of a key's lines can always be found again: each step
      overwrites exactly one line equal to a snapshot entry, and the
      placeholder is never a snapshot entry. */
  lemma {:induction false} StripKeyLinesSucceed(c: seq<string>, ls: seq<string>)
    requires multiset(ls) <= multiset(c)
    requires Placeholder !in ls
    ensures StripKeyLines(c, ls).Success?
    decreases |ls|
  {
    if ls != [] {
      assert ls[0] in multiset(ls);
      var idx := IndexOf(c, ls[0]).value;
      var d := c[idx := Placeholder];
      assert ls == [ls[0]] + ls[1..];
      assert multiset(d) == multiset(c) - multiset{ls[0]} + multiset{Placeholder};
      assert multiset(ls[1..]) == multiset(ls) - multiset{ls[0]};
      StripKeyLinesSucceed(d, ls[1..]);
    }
  }

  /** The key pass never raises: unlike the group pass, it overwrites only
      the lines it looks up. */
  lemma {:induction false} StripKeysSucceed(c: seq<string>, ks: seq<string>)
    ensures StripKeys(c, ks).Success?
    decreases |ks|
  {
    if ks != [] {
      var ls := LinesContaining(c, KeyPattern(ks[0]));
      PlaceholderLacksPatterns("", ks[0]);
      assert Placeholder !in ls;
      LinesContainingWithin(c, KeyPattern(ks[0]));
      StripKeyLinesSucceed(c, ls);
      StripKeysSucceed(StripKeyLines(c, ls).value, ks[1..]);
    }
  }

  /** `idx` lists, in increasing order, positions of `b` holding the elements of `a`. */
  ghost predicate SubsequenceAt(a: seq<string>, b: seq<string>, idx: seq<nat>) {
    |idx| == |a| &&
    (forall k :: 0 <= k < |idx| ==> idx[k] < |b| && b[idx[k]] == a[k]) &&
    (forall k, l :: 0 <= k < l < |idx| ==> idx[k] < idx[l])
  }

  /** `a` is `b` with some elements left out, the rest in their order. */
  ghost predicate IsSubsequence(a: seq<string>, b: seq<string>) {
    exists idx :: SubsequenceAt(a, b, idx)
  }

  /** Filtering the placeholders out of an overwritten copy of `c` leaves lines
      of `c` in their original order. */
  lemma {:induction false} RemovePlaceholdersSubsequence(c: seq<string>, r: seq<string>)
    requires Overwrites(c, r)
    ensures SubsequenceAt(RemovePlaceholders(r), c, KeptPositions(r))
    decreases |r|
  {
    if r != [] {
      var n := |r| - 1;
      assert Overwrites(c[..n], r[..n]);
      RemovePlaceholdersSubsequence(c[..n], r[..n]);
    }
  }

  /** The positions of `r` that do not hold the placeholder. */
  function KeptPositions(r: seq<string>): (idx: seq<nat>)
    ensures forall k :: 0 <= k < |idx| ==> idx[k] < |r| && r[idx[k]] != Placeholder
    decreases |r|
  {
    if r == [] then []
    else if r[|r| - 1] == Placeholder then KeptPositions(r[..|r| - 1])
    else KeptPositions(r[..|r| - 1]) + [|r| - 1]
  }

  /** What `strip_content` guarantees about the lines it writes back: they
      are lines of the input in their original order (so never more of them),
      none is the placeholder, none contains `[g]` for a listed group or `k=`
      for a listed key. */
  lemma StripGuarantees(lines: seq<string>, gs: seq<string>, ks: seq<string>)
    requires Stripped(lines, gs, ks).Success?
    ensures var out := Stripped(lines, gs, ks).value;
            IsSubsequence(out, lines) && |out| <= |lines| && Placeholder !in out &&
            (forall g, i :: g in gs && 0 <= i < |out| ==> !Contains(out[i], GroupPattern(g))) &&
            (forall k, i :: k in ks && 0 <= i < |out| ==> !Contains(out[i], KeyPattern(k)))
  {
    var afterGroups := StripGroups(lines, gs).value;
    var afterKeys := StripKeys(afterGroups, ks).value;
    var out := RemovePlaceholders(afterKeys);
    StripGroupsOverwrites(lines, gs);
    StripKeysOverwrites(afterGroups, ks);
    StripGroupsClears(lines, gs);
    StripKeysClears(afterGroups, ks);
    assert Overwrites(lines, afterKeys);
    RemovePlaceholdersSubsequence(lines, afterKeys);
    RemovePlaceholdersCounts(afterKeys);
    forall g, i | g in gs && 0 <= i < |out| ensures !Contains(out[i], GroupPattern(g)) {
      assert out[i] in multiset(afterKeys);
      var j :| 0 <= j < |afterKeys| && afterKeys[j] == out[i];
      PlaceholderLacksPatterns(g, "");
      CountOverwrites(afterGroups, afterKeys, GroupPattern(g));
      assert LinesContaining(afterGroups, GroupPattern(g)) == [];
    }
  }

  lemma {:induction false} StripGroupsUnchanged(c: seq<string>, gs: seq<string>)
    requires forall g, i :: g in gs && 0 <= i < |c| ==> !Contains(c[i], GroupPattern(g))
    ensures StripGroups(c, gs) == Success(c)
    decreases |gs|
  {
    if gs != [] {
      assert LinesContaining(c, GroupPattern(gs[0])) == [];
      StripGroupsUnchanged(c, gs[1..]);
    }
  }

  lemma {:induction false} StripKeysUnchanged(c: seq<string>, ks: seq<string>)
    requires forall k, i :: k in ks && 0 <= i < |c| ==> !Contains(c[i], KeyPattern(k))
    ensures StripKeys(c, ks) == Success(c)
    decreases |ks|
  {
    if ks != [] {
      assert LinesContaining(c, KeyPattern(ks[0])) == [];
      StripKeysUnchanged(c, ks[1..]);
    }
  }

  lemma {:induction false} RemovePlaceholdersUnchanged(c: seq<string>)
    requires Placeholder !in c
    ensures RemovePlaceholders(c) == c
    decreases |c|
  {
    if c != [] {
      RemovePlaceholdersUnchanged(c[..|c| - 1]);
      assert c[..|c| - 1] + [c[|c| - 1]] == c;
    }
  }

  /** With no groups and no keys the only change is that lines equal to the
      placeholder are dropped; a file without such lines comes back as it was. */
  lemma StripWithoutLists(lines: seq<string>)
    ensures Stripped(lines, [], []) == Success(RemovePlaceholders(lines))
    ensures Placeholder !in lines ==> Stripped(lines, [], []) == Success(lines)
  {
    if Placeholder !in lines {
      RemovePlaceholdersUnchanged(lines);
    }
  }

  /** Stripping a stripped file again with the same lists changes nothing. */
  lemma StripIdempotent(lines: seq<string>, gs: seq<string>, ks: seq<string>)
    requires Stripped(lines, gs, ks).Success?
    ensures Stripped(Stripped(lines, gs, ks).value, gs, ks) == Stripped(lines, gs, ks)
  {
    var out := Stripped(lines, gs, ks).value;
    StripGuarantees(lines, gs, ks);
    StripGroupsUnchanged(out, gs);
    StripKeysUnchanged(out, ks);
    RemovePlaceholdersUnchanged(out);
  }

  /** A line shorter than a pattern cannot contain it. */
  lemma ShorterLacks(s: string, pat: string)
    requires |s| < |pat|
    ensures !Contains(s, pat)
  {
  }

  lemma OccursBetween(a: string, p: string, b: string)
    ensures OccursAt(a + p + b, p, |a|)
  {
    assert (a + p + b)[|a|..|a| + |p|] == p;
  }

  lemma LinesContainingCons(x: string, rest: seq<string>, pat: string)
    ensures LinesContaining([x] + rest, pat)
            == (if Contains(x, pat) then [x] else []) + LinesContaining(rest, pat)
  {
    assert ([x] + rest)[1..] == rest;
  }

  lemma GroupExampleSnapshot(c: seq<string>, g: string)
    requires c == ["[General]", "a=1", "b=2", "[Other]", "c=3"]
    requires g == "General"
    ensures LinesContaining(c, GroupPattern(g)) == [c[0]]
  {
    var pat := GroupPattern(g);
    assert c[0] == [] + pat + [] && |pat| == 9 by {
      assert pat == "[General]";
    }
    OccursBetween([], pat, []);
    ShorterLacks(c[1], pat);
    ShorterLacks(c[2], pat);
    ShorterLacks(c[3], pat);
    ShorterLacks(c[4], pat);
    SnapshotOfFive(c[0], c[1], c[2], c[3], c[4], pat);
  }

  lemma SnapshotOfFive(x0: string, x1: string, x2: string, x3: string, x4: string, pat: string)
    requires Contains(x0, pat) && !Contains(x1, pat) && !Contains(x2, pat)
    requires !Contains(x3, pat) && !Contains(x4, pat)
    ensures LinesContaining([x0, x1, x2, x3, x4], pat) == [x0]
  {
    LinesContainingCons(x4, [], pat);
    LinesContainingCons(x3, [x4], pat);
    LinesContainingCons(x2, [x3, x4], pat);
    LinesContainingCons(x1, [x2, x3, x4], pat);
    LinesContainingCons(x0, [x1, x2, x3, x4], pat);
    assert [x3] + [x4] == [x3, x4];
    assert [x2] + [x3, x4] == [x2, x3, x4];
    assert [x1] + [x2, x3, x4] == [x1, x2, x3, x4];
    assert [x0] + [x1, x2, x3, x4] == [x0, x1, x2, x3, x4];
  }

  lemma GroupExampleScan(c: seq<string>)
    requires c == ["[General]", "a=1", "b=2", "[Other]", "c=3"]
    ensures ScanFrom(c[0 := Placeholder], 0) == [Placeholder, Placeholder, Placeholder, c[3], c[4]]
  {
    assert !IsHeader(c[1]) && !IsHeader(c[2]) && IsHeader(c[3]);
    assert NextHeader(c, 1) == 3;
    GroupStepShape(c, 0);
    assert Placeholders(3) == [Placeholder, Placeholder, Placeholder];
  }

  lemma IndexOfAt(c: seq<string>, x: string, i: nat)
    requires i < |c| && c[i] == x
    requires forall j :: 0 <= j < i ==> c[j] != x
    ensures IndexOf(c, x) == Some(i)
  {
  }

  /** Stripping one group and no keys is the group pass for that group's
      snapshot, followed by the filter. */
  lemma StripOneGroup(c: seq<string>, g: string)
    ensures StripGroupLines(c, LinesContaining(c, GroupPattern(g))).Success? ==>
              Stripped(c, [g], []) == Success(RemovePlaceholders(StripGroupLines(c, LinesContaining(c, GroupPattern(g))).value))
    ensures StripGroupLines(c, LinesContaining(c, GroupPattern(g))).Failure? ==>
              Stripped(c, [g], []) == StripGroupLines(c, LinesContaining(c, GroupPattern(g)))
  {
    var step := StripGroupLines(c, LinesContaining(c, GroupPattern(g)));
    assert [g][1..] == [];
    assert StripGroups(c, [g]) == step;
    if step.Success? {
      assert StripKeys(step.value, []) == Success(step.value);
    }
  }

  /** Stripping one key and no groups is the key pass for that key's
      snapshot, followed by the filter. */
  lemma StripOneKey(c: seq<string>, k: string)
    ensures StripKeyLines(c, LinesContaining(c, KeyPattern(k))).Success? ==>
              Stripped(c, [], [k]) == Success(RemovePlaceholders(StripKeyLines(c, LinesContaining(c, KeyPattern(k))).value))
  {
    var step := StripKeyLines(c, LinesContaining(c, KeyPattern(k)));
    assert [k][1..] == [];
    assert StripGroups(c, []) == Success(c);
    assert StripKeys(c, [k]) == step;
  }

  /** The filter on a file with one more line at the end. */
  lemma RemovePlaceholdersSnoc(c: seq<string>, x: string)
    ensures RemovePlaceholders(c + [x]) == RemovePlaceholders(c) + (if x == Placeholder then [] else [x])
  {
    assert (c + [x])[..|c|] == c;
    assert (c + [x])[|c|] == x;
  }

  /** The filter distributes over concatenation. */
  lemma {:induction false} RemovePlaceholdersAppend(a: seq<string>, b: seq<string>)
    ensures RemovePlaceholders(a + b) == RemovePlaceholders(a) + RemovePlaceholders(b)
    decreases |b|
  {
    if b == [] {
      assert a + b == a;
    } else {
      var b' := b[..|b| - 1];
      var x := b[|b| - 1];
      assert b == b' + [x];
      assert a + b == (a + b') + [x];
      RemovePlaceholdersAppend(a, b');
      RemovePlaceholdersSnoc(a + b', x);
      RemovePlaceholdersSnoc(b', x);
    }
  }

  lemma FilterOfFive(x0: string, x1: string, x2: string, x3: string, x4: string)
    requires x0 == Placeholder && x1 == Placeholder && x2 == Placeholder
    requires x3 != Placeholder && x4 != Placeholder
    ensures RemovePlaceholders([x0, x1, x2, x3, x4]) == [x3, x4]
  {
    assert [x0, x1, x2, x3, x4] == [x0, x1, x2] + [x3, x4];
    RemovePlaceholdersAppend([x0, x1, x2], [x3, x4]);
    assert RemovePlaceholders([x0, x1, x2]) == [] by {
      RemovePlaceholdersCounts([x0, x1, x2]);
      assert multiset([x0, x1, x2])[Placeholder] == 3;
    }
    assert RemovePlaceholders([x3, x4]) == [x3, x4] by {
      RemovePlaceholdersUnchanged([x3, x4]);
    }
  }

  lemma FilterOfFour(x0: string, x1: string, x2: string, x3: string)
    requires x0 != Placeholder && x1 == Placeholder && x2 == Placeholder && x3 != Placeholder
    ensures RemovePlaceholders([x0, x1, x2, x3]) == [x0, x3]
  {
    assert [x0, x1, x2, x3] == [x0] + ([x1, x2] + [x3]);
    RemovePlaceholdersAppend([x1, x2], [x3]);
    RemovePlaceholdersAppend([x0], [x1, x2] + [x3]);
    assert RemovePlaceholders([x1, x2]) == [] by {
      RemovePlaceholdersCounts([x1, x2]);
      assert multiset([x1, x2])[Placeholder] == 2;
    }
    assert RemovePlaceholders([x0]) == [x0] by {
      RemovePlaceholdersUnchanged([x0]);
    }
    assert RemovePlaceholders([x3]) == [x3] by {
      RemovePlaceholdersUnchanged([x3]);
    }
  }

  /** The group pass for the snapshot `[c[0]]` of the sample file. */
  lemma GroupExampleLines(c: seq<string>)
    requires c == ["[General]", "a=1", "b=2", "[Other]", "c=3"]
    ensures StripGroupLines(c, [c[0]]) == Success([Placeholder, Placeholder, Placeholder, c[3], c[4]])
  {
    GroupExampleScan(c);
    IndexOfAt(c, c[0], 0);
    var scanned := ScanFrom(c[0 := Placeholder], 0);
    assert [c[0]][1..] == [];
    assert StripGroupLines(scanned, []) == Success(scanned);
  }

  /** A group is stripped from its header to the next header. */
  lemma GroupExample(c: seq<string>)
    requires c == ["[General]", "a=1", "b=2", "[Other]", "c=3"]
    ensures Stripped(c, ["General"], []) == Success(["[Other]", "c=3"])
  {
    GroupExampleSnapshot(c, "General");
    GroupExampleLines(c);
    StripOneGroup(c, "General");
    assert c[3] != Placeholder && c[4] != Placeholder;
    FilterOfFive(Placeholder, Placeholder, Placeholder, c[3], c[4]);
  }

  lemma KeyExampleSnapshot(c: seq<string>)
    requires c == ["[Font]", "FontSize=10", "Size=3", "Name=x"]
    ensures LinesContaining(c, KeyPattern("Size")) == [c[1], c[2]]
  {
    var pat := KeyPattern("Size");
    assert c[1] == "Font" + pat + "10";
    OccursBetween("Font", pat, "10");
    assert c[2] == [] + pat + "3";
    OccursBetween([], pat, "3");
    LacksCharacter(c[0], pat, 4);
    LacksCharacter(c[3], pat, 0);
    SnapshotOfFour(c[0], c[1], c[2], c[3], pat);
  }

  lemma SnapshotOfFour(x0: string, x1: string, x2: string, x3: string, pat: string)
    requires !Contains(x0, pat) && Contains(x1, pat) && Contains(x2, pat) && !Contains(x3, pat)
    ensures LinesContaining([x0, x1, x2, x3], pat) == [x1, x2]
  {
    LinesContainingCons(x3, [], pat);
    LinesContainingCons(x2, [x3], pat);
    LinesContainingCons(x1, [x2, x3], pat);
    LinesContainingCons(x0, [x1, x2, x3], pat);
    assert [x2] + [x3] == [x2, x3];
    assert [x1] + [x2, x3] == [x1, x2, x3];
    assert [x0] + [x1, x2, x3] == [x0, x1, x2, x3];
  }

  lemma KeyExampleLines(c: seq<string>)
    requires c == ["[Font]", "FontSize=10", "Size=3", "Name=x"]
    ensures StripKeyLines(c, [c[1], c[2]]) == Success([c[0], Placeholder, Placeholder, c[3]])
  {
    IndexOfAt(c, c[1], 1);
    var d := c[1 := Placeholder];
    IndexOfAt(d, c[2], 2);
    var e := d[2 := Placeholder];
    assert [c[1], c[2]][1..] == [c[2]];
    assert StripKeyLines(d, [c[2]]) == Success(e);
    assert e == [c[0], Placeholder, Placeholder, c[3]];
  }

  lemma KeyExampleFilter(c: seq<string>)
    requires c == ["[Font]", "FontSize=10", "Size=3", "Name=x"]
    ensures RemovePlaceholders([c[0], Placeholder, Placeholder, c[3]]) == ["[Font]", "Name=x"]
  {
    assert c[0] != Placeholder && c[3] != Placeholder;
    FilterOfFour(c[0], Placeholder, Placeholder, c[3]);
  }

  /** Keys are matched as substrings: `Size` also strips `FontSize=10`. */
  lemma KeySubstringExample(c: seq<string>)
    requires c == ["[Font]", "FontSize=10", "Size=3", "Name=x"]
    ensures Stripped(c, [], ["Size"]) == Success(["[Font]", "Name=x"])
  {
    KeyExampleSnapshot(c);
    KeyExampleLines(c);
    StripOneKey(c, "Size");
    KeyExampleFilter(c);
  }

  /** A line that mentions a group without starting a header is overwritten
      by the scan from that group's header, so `list.index` no longer finds it. */
  lemma GroupValueErrorExample(c: seq<string>)
    requires c == ["[G]", "x[G]"]
    ensures Stripped(c, ["G"], []) == Failure(ValueError)
  {
    var pat := GroupPattern("G");
    assert c[0] == [] + pat + [];
    OccursBetween([], pat, []);
    assert c[1] == "x" + pat + [];
    OccursBetween("x", pat, []);
    assert c[1..][1..] == [];
    assert LinesContaining(c, pat) == [c[0], c[1]];
    assert IndexOf(c, c[0]) == Some(0);
    assert !IsHeader(c[1]);
    assert NextHeader(c, 1) == 2;
    GroupStepShape(c, 0);
    var scanned := [Placeholder, Placeholder];
    assert ScanFrom(c[0 := Placeholder], 0) == scanned;
    assert IndexOf(scanned, c[1]).None?;
    assert StripGroupLines(c, [c[0], c[1]]) == Failure(ValueError);
  }
}
