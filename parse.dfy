/** konsave/parse.py: the token table, the recogniser for function tokens
    `${NAME='ARG'}`, and the two resolvers `ends_with` and `begins_with`
    that look a token's argument up in a directory listing. */
module Parse {
  import opened Wrappers
  import opened Text

  /** `TOKEN_SYMBOL`: the sigil in front of every token. */
  const TokenSymbol: string := "$"

  /** The keyword names of the table, in its iteration order. */
  const KeywordNames: seq<string> := ["HOME", "CONFIG_DIR", "SHARE_DIR", "BIN_DIR"]

  /** The directories the table's keywords stand for. The program derives them
      from the user's home directory when it starts; here they are given. */
  datatype Dirs = Dirs(home: string, configDir: string, shareDir: string, binDir: string)

  /** `tokens["keywords"]["dict"]`: keyword name and value, in iteration order. */
  function KeywordTable(d: Dirs): seq<(string, string)> {
    [("HOME", d.home), ("CONFIG_DIR", d.configDir), ("SHARE_DIR", d.shareDir), ("BIN_DIR", d.binDir)]
  }

  /** The resolvers `tokens["functions"]["dict"]` holds. */
  datatype Function = EndsWithFunction | BeginsWithFunction

  /** Looking a token name up in `tokens["functions"]["dict"]`. */
  function LookupFunction(name: string): Option<Function> {
    if name == "ENDS_WITH" then Some(EndsWithFunction)
    else if name == "BEGINS_WITH" then Some(BeginsWithFunction)
    else None
  }

  /** The table is closed: the sigil is `$`, the keywords are exactly the four
      names, in order, and exactly two names denote functions. */
  lemma TokenTableClosed(d: Dirs, name: string)
    ensures TokenSymbol == "$"
    ensures |KeywordTable(d)| == |KeywordNames|
    ensures forall i :: 0 <= i < |KeywordNames| ==> KeywordTable(d)[i].0 == KeywordNames[i]
    ensures LookupFunction(name).Some? <==> name == "ENDS_WITH" || name == "BEGINS_WITH"
  {
  }

  // ---------------------------------------------------------------------------
  // The function-token pattern  \$\{(\w+)\=(?:"|')(\S+)(?:"|')\}
  // ---------------------------------------------------------------------------

  /** `\w`, restricted to ASCII: letters, digits and the underscore. */
  predicate IsWordChar(c: char) {
    ('a' <= c <= 'z') || ('A' <= c <= 'Z') || ('0' <= c <= '9') || c == '_'
  }

  /** `\s`: the characters Python's `str.isspace` accepts. */
  predicate IsSpace(c: char) {
    var n := c as int;
    (9 <= n <= 13) || (28 <= n <= 32) || n == 0x85 || n == 0xA0 || n == 0x1680
    || (0x2000 <= n <= 0x200A) || n == 0x2028 || n == 0x2029 || n == 0x202F
    || n == 0x205F || n == 0x3000
  }

  /** `(?:"|')`: either quote, each one chosen independently. */
  predicate IsQuote(c: char) {
    c == '\'' || c == '"'
  }

  /** The reference definition of a match: `s[i..k + 2]` is `${NAME=qARGq}` with
      NAME = `s[i + 2..n]` (word characters) and ARG = `s[n + 2..k]`
      (non-whitespace characters), both non-empty. */
  ghost predicate PatternAt(s: string, i: nat, n: nat, k: nat) {
    && i + 2 < n && n + 2 < k && k + 2 <= |s|
    && s[i] == '$' && s[i + 1] == '{'
    && (forall j :: i + 2 <= j < n ==> IsWordChar(s[j]))
    && s[n] == '=' && IsQuote(s[n + 1])
    && (forall j :: n + 2 <= j < k ==> !IsSpace(s[j]))
    && IsQuote(s[k]) && s[k + 1] == '}'
  }

  /** A recognised token in a string: it spans `[start, End())`, its name is
      `[start + 2, nameEnd)` and its argument `[nameEnd + 2, argEnd)`. */
  datatype Match = Match(start: nat, nameEnd: nat, argEnd: nat) {
    function End(): nat {
      argEnd + 2
    }
  }

  /** The end of the run of word characters from `j`. */
  function WordEnd(s: string, j: nat): (e: nat)
    requires j <= |s|
    ensures j <= e <= |s|
    decreases |s| - j
  {
    if j < |s| && IsWordChar(s[j]) then WordEnd(s, j + 1) else j
  }

  /** The run is maximal: word characters up to the end, and none at it. */
  lemma {:induction false} WordEndSpec(s: string, j: nat)
    requires j <= |s|
    ensures forall x :: j <= x < WordEnd(s, j) ==> IsWordChar(s[x])
    ensures WordEnd(s, j) < |s| ==> !IsWordChar(s[WordEnd(s, j)])
    decreases |s| - j
  {
    if j < |s| && IsWordChar(s[j]) {
      WordEndSpec(s, j + 1);
    }
  }

  /** The end of the run of non-whitespace characters from `j`. */
  function NonSpaceEnd(s: string, j: nat): (e: nat)
    requires j <= |s|
    ensures j <= e <= |s|
    decreases |s| - j
  {
    if j < |s| && !IsSpace(s[j]) then NonSpaceEnd(s, j + 1) else j
  }

  /** The run is maximal: no whitespace up to the end, and whitespace at it. */
  lemma {:induction false} NonSpaceEndSpec(s: string, j: nat)
    requires j <= |s|
    ensures forall x :: j <= x < NonSpaceEnd(s, j) ==> !IsSpace(s[x])
    ensures NonSpaceEnd(s, j) < |s| ==> IsSpace(s[NonSpaceEnd(s, j)])
    decreases |s| - j
  {
    if j < |s| && !IsSpace(s[j]) {
      NonSpaceEndSpec(s, j + 1);
    }
  }

  predicate CloserAt(s: string, k: nat)
    requires k + 2 <= |s|
  {
    IsQuote(s[k]) && s[k + 1] == '}'
  }

  /** The backtracking of the greedy `\S+`: the last closing quote-and-brace that
      starts at or after `lo` and ends by `hi`. */
  function LastCloser(s: string, lo: nat, hi: nat): (r: Option<nat>)
    requires hi <= |s|
    ensures r.Some? ==> lo <= r.value && r.value + 2 <= hi && CloserAt(s, r.value)
    decreases hi
  {
    if hi < lo + 2 then None
    else if CloserAt(s, hi - 2) then Some(hi - 2)
    else LastCloser(s, lo, hi - 1)
  }

  /** No closer starts after the one found, or anywhere when none is found. */
  lemma {:induction false} LastCloserSpec(s: string, lo: nat, hi: nat)
    requires hi <= |s|
    ensures forall k :: lo <= k && k + 2 <= hi && (LastCloser(s, lo, hi).None? || LastCloser(s, lo, hi).value < k) ==>
              !CloserAt(s, k)
    decreases hi
  {
    if hi >= lo + 2 && !CloserAt(s, hi - 2) {
      LastCloserSpec(s, lo, hi - 1);
    }
  }

  /** None of the characters that delimit a token is whitespace. */
  lemma DelimitersAreNotSpace(c: char)
    ensures IsQuote(c) || c == '}' || c == '{' || c == '$' || c == '=' || IsWordChar(c) ==> !IsSpace(c)
  {
  }

  /** The name is the maximal run of word characters: a match fixes it. */
  lemma NameEndUnique(s: string, i: nat, n1: nat, k1: nat, n2: nat, k2: nat)
    requires PatternAt(s, i, n1, k1) && PatternAt(s, i, n2, k2)
    ensures n1 == n2
  {
  }

  /** `re.match` of the pattern at position `i`: the token there, if any, with
      the longest argument the greedy `\S+` allows. */
  function MatchAt(s: string, i: nat): (r: Option<Match>)
    ensures r.Some? ==> r.value.start == i && i + 2 < r.value.nameEnd && r.value.nameEnd + 2 < r.value.argEnd
                        && r.value.End() <= |s|
  {
    if i + 1 < |s| && s[i] == '$' && s[i + 1] == '{' then
      var n := WordEnd(s, i + 2);
      if i + 2 < n && n + 1 < |s| && s[n] == '=' && IsQuote(s[n + 1]) then
        match LastCloser(s, n + 3, NonSpaceEnd(s, n + 2))
        case Some(k) => Some(Match(i, n, k))
        case None => None
      else
        None
    else
      None
  }

  /** The match is the reference pattern, with the longest argument; no match
      means the pattern does not occur at `i`. */
  lemma MatchAtSpec(s: string, i: nat)
    ensures MatchAt(s, i).Some? ==>
              MatchAt(s, i).value.start == i && PatternAt(s, i, MatchAt(s, i).value.nameEnd, MatchAt(s, i).value.argEnd)
    ensures MatchAt(s, i).Some? ==> forall n: nat, k: nat :: PatternAt(s, i, n, k) ==> k <= MatchAt(s, i).value.argEnd
    ensures MatchAt(s, i).None? ==> forall n: nat, k: nat :: !PatternAt(s, i, n, k)
  {
    if i + 1 < |s| && s[i] == '$' && s[i + 1] == '{' {
      var n := WordEnd(s, i + 2);
      if i + 2 < n && n + 1 < |s| && s[n] == '=' && IsQuote(s[n + 1]) {
        var e := NonSpaceEnd(s, n + 2);
        MatchAtComplete(s, i, n, e);
        LastCloserSpec(s, n + 3, e);
      } else {
        MatchAtNoName(s, i, n);
      }
    }
  }

  lemma MatchAtNoName(s: string, i: nat, n: nat)
    requires i + 1 < |s| && s[i] == '$' && s[i + 1] == '{'
    requires n == WordEnd(s, i + 2)
    requires !(i + 2 < n && n + 1 < |s| && s[n] == '=' && IsQuote(s[n + 1]))
    ensures forall n': nat, k: nat :: !PatternAt(s, i, n', k)
  {
    WordEndSpec(s, i + 2);
    forall n': nat, k: nat | PatternAt(s, i, n', k) ensures false {
    }
  }

  lemma MatchAtComplete(s: string, i: nat, n: nat, e: nat)
    requires i + 1 < |s| && s[i] == '$' && s[i + 1] == '{'
    requires n == WordEnd(s, i + 2)
    requires i + 2 < n && n + 1 < |s| && s[n] == '=' && IsQuote(s[n + 1])
    requires e == NonSpaceEnd(s, n + 2)
    ensures forall n': nat, k: nat :: PatternAt(s, i, n', k) ==> n' == n && n + 3 <= k && k + 2 <= e && CloserAt(s, k)
    ensures forall k: nat :: n + 3 <= k && k + 2 <= e && CloserAt(s, k) ==> PatternAt(s, i, n, k)
  {
    WordEndSpec(s, i + 2);
    NonSpaceEndSpec(s, n + 2);
    forall n': nat, k: nat | PatternAt(s, i, n', k)
      ensures n' == n && n + 3 <= k && k + 2 <= e && CloserAt(s, k)
    {
      DelimitersAreNotSpace(s[k]);
      DelimitersAreNotSpace(s[k + 1]);
    }
    forall k: nat | n + 3 <= k && k + 2 <= e && CloserAt(s, k) ensures PatternAt(s, i, n, k) {
    }
  }

  /** `re.search`: the leftmost position, from `from` on, where a token is recognised. */
  function SearchFrom(s: string, from: nat): (r: Option<Match>)
    ensures r.Some? ==> from <= r.value.start && MatchAt(s, r.value.start) == r
    decreases |s| - from
  {
    if from >= |s| then None
    else match MatchAt(s, from)
      case Some(m) => Some(m)
      case None => SearchFrom(s, from + 1)
  }

  /** The search finds a match at or after `from`, and no position before it
      starts one. */
  lemma {:induction false} SearchFromSpec(s: string, from: nat)
    ensures SearchFrom(s, from).Some? ==>
              from <= SearchFrom(s, from).value.start && MatchAt(s, SearchFrom(s, from).value.start) == SearchFrom(s, from)
    ensures forall i: nat :: from <= i && (SearchFrom(s, from).None? || i < SearchFrom(s, from).value.start) ==>
              MatchAt(s, i).None?
    decreases |s| - from
  {
    if from < |s| && MatchAt(s, from).None? {
      SearchFromSpec(s, from + 1);
    } else if from < |s| {
      MatchAtSpec(s, from);
    }
  }

  function Search(s: string): (r: Option<Match>)
    ensures r.Some? ==> MatchAt(s, r.value.start) == r
  {
    SearchFrom(s, 0)
  }

  /** A match found by `re.search` is a match at its start, and no earlier
      position starts one. */
  lemma SearchSpec(s: string)
    ensures Search(s).Some? ==> MatchAt(s, Search(s).value.start) == Search(s)
    ensures forall i: nat :: Search(s).None? || i < Search(s).value.start ==> MatchAt(s, i).None?
  {
    SearchFromSpec(s, 0);
  }

  /** The text of a recognised token. */
  function TokenText(s: string, m: Match): string
    requires MatchAt(s, m.start) == Some(m)
  {
    s[m.start..m.End()]
  }

  /** `re.findall`: the texts of the tokens found left to right, each search
      starting where the previous token ended. */
  function FindAllFrom(s: string, from: nat): seq<string>
    decreases |s| - from
  {
    match SearchFrom(s, from)
    case None => []
    case Some(m) => [TokenText(s, m)] + FindAllFrom(s, m.End())
  }

  function FindAll(s: string): seq<string> {
    FindAllFrom(s, 0)
  }

  /** Whatever precedes a match does not affect it: the same text at another
      position is a match of the same shape. */
  lemma PatternShift(s: string, i: nat, n: nat, k: nat, t: string, j: nat)
    requires PatternAt(s, i, n, k)
    requires j + (k + 2 - i) <= |t| && t[j..j + (k + 2 - i)] == s[i..k + 2]
    ensures PatternAt(t, j, j + (n - i), j + (k - i))
  {
    forall x | j <= x < j + (k + 2 - i) ensures t[x] == s[x - j + i] {
      assert t[j..j + (k + 2 - i)][x - j] == s[i..k + 2][x - j];
    }
    var n', k' := j + (n - i), j + (k - i);
    forall x | j + 2 <= x < n' ensures IsWordChar(t[x]) {
      assert t[x] == s[x - j + i];
    }
    forall x | n' + 2 <= x < k' ensures !IsSpace(t[x]) {
      assert t[x] == s[x - j + i];
    }
    assert t[j] == s[i] && t[j + 1] == s[i + 1];
    assert t[n'] == s[n] && t[n' + 1] == s[n + 1];
    assert t[k'] == s[k] && t[k' + 1] == s[k + 1];
  }

  /** Searching a token's own text finds that token, at position 0, with the
      same name and argument. */
  lemma SearchOwnText(s: string, m: Match)
    requires MatchAt(s, m.start) == Some(m)
    ensures Search(TokenText(s, m)) == Some(Match(0, m.nameEnd - m.start, m.argEnd - m.start))
  {
    var t := TokenText(s, m);
    var n, k := m.nameEnd - m.start, m.argEnd - m.start;
    assert PatternAt(s, m.start, m.nameEnd, m.argEnd) by {
      MatchAtSpec(s, m.start);
    }
    TextIsPattern(s, m.start, m.nameEnd, m.argEnd);
    WholeTokenMatch(t, n, k);
    assert Search(t) == SearchFrom(t, 0);
  }

  /** The text of a pattern matches the pattern from its first character. */
  lemma TextIsPattern(s: string, i: nat, n: nat, k: nat)
    requires PatternAt(s, i, n, k)
    ensures PatternAt(s[i..k + 2], 0, n - i, k - i)
  {
    PatternShift(s, i, n, k, s[i..k + 2], 0);
  }

  /** A text that is one token from end to end matches as that token. */
  lemma WholeTokenMatch(t: string, n: nat, k: nat)
    requires PatternAt(t, 0, n, k) && k + 2 == |t|
    ensures MatchAt(t, 0) == Some(Match(0, n, k))
  {
    var r := MatchAt(t, 0);
    MatchAtSpec(t, 0);
    NameEndUnique(t, 0, n, k, r.value.nameEnd, r.value.argEnd);
  }

  /** No copy of a found token's text starts before it: the copy would match
      the pattern, and the search would have stopped there. */
  lemma NoEarlierCopy(s: string, m: Match, r: int)
    requires Search(s) == Some(m) && 0 <= r < m.start
    ensures !OccursAt(s, TokenText(s, m), r)
  {
    if OccursAt(s, TokenText(s, m), r) {
      assert PatternAt(s, m.start, m.nameEnd, m.argEnd) by {
        MatchAtSpec(s, m.start);
      }
      CopyIsPattern(s, m.start, m.nameEnd, m.argEnd, r);
      assert MatchAt(s, r).None? by {
        SearchSpec(s);
      }
      MatchAtSpec(s, r);
    }
  }

  /** A copy of a pattern's text matches the pattern where it starts. */
  lemma CopyIsPattern(s: string, i: nat, n: nat, k: nat, r: nat)
    requires PatternAt(s, i, n, k) && OccursAt(s, s[i..k + 2], r)
    ensures PatternAt(s, r, r + (n - i), r + (k - i))
  {
    PatternShift(s, i, n, k, s, r);
  }

  /** Python's `path.find(occurrence)` for a token's text is the token's own
      position: an earlier copy of the text would be an earlier match. */
  lemma FindLocatesMatch(s: string, m: Match)
    requires Search(s) == Some(m)
    ensures Find(s, TokenText(s, m)) == m.start
  {
    var t := TokenText(s, m);
    var r := Find(s, t);
    assert OccursAt(s, t, m.start);
    if r < m.start {
      NoEarlierCopy(s, m, r);
    }
  }

  // ---------------------------------------------------------------------------
  // The resolvers
  // ---------------------------------------------------------------------------

  /** `os.listdir`: the entries of each existing directory, by its path text,
      in the order the system lists them. */
  type Listing = map<string, seq<string>>

  /** The predicate a resolver applies to a directory entry. */
  predicate Accepts(f: Function, entry: string, arg: string) {
    match f
    case EndsWithFunction => HasSuffix(entry, arg)
    case BeginsWithFunction => HasPrefix(entry, arg)
  }

  /** The loop over the listing: the index of the first entry accepted. */
  function FirstAccepted(f: Function, entries: seq<string>, arg: string, from: nat): (r: Option<nat>)
    ensures r.Some? ==> from <= r.value < |entries| && Accepts(f, entries[r.value], arg)
    ensures forall j :: from <= j < |entries| && (r.None? || j < r.value) ==> !Accepts(f, entries[j], arg)
    decreases |entries| - from
  {
    if from >= |entries| then None
    else if Accepts(f, entries[from], arg) then Some(from)
    else FirstAccepted(f, entries, arg, from + 1)
  }

  /** The body `ends_with` and `begins_with` share: find the leftmost token in
      `path`, list the directory its preceding text names, and replace every
      occurrence of the token text by the first entry the predicate accepts;
      when none is accepted the result is the token text alone. */
  function Resolve(f: Function, path: string, listing: Listing): Result<string, Error> {
    match Search(path)
    case None => Failure(AttributeError)
    case Some(m) =>
      var occurrence := TokenText(path, m);
      var at := Find(path, occurrence);
      // `path[0 : path.find(occurrence)]`, where a -1 would drop the last character
      var dir := if at < 0 then path[..|path| - 1] else path[..at];
      if dir !in listing then Failure(FileNotFound(dir))
      else match Search(occurrence)
        case None => Failure(AttributeError)
        case Some(own) =>
          var arg := occurrence[own.nameEnd + 2..own.argEnd];
          match FirstAccepted(f, listing[dir], arg, 0)
          case Some(j) => Success(ReplaceAll(path, occurrence, listing[dir][j]))
          case None => Success(occurrence)
  }

  /** `ends_with`. */
  function EndsWith(path: string, listing: Listing): Result<string, Error> {
    Resolve(EndsWithFunction, path, listing)
  }

  /** `begins_with`. */
  function BeginsWith(path: string, listing: Listing): Result<string, Error> {
    Resolve(BeginsWithFunction, path, listing)
  }

  /** The argument a resolver reads (`group(2)` of the token text) is the
      token's argument in the path, and the directory it lists is the text
      before the token. */
  lemma ResolveUnfold(f: Function, path: string, listing: Listing, m: Match)
    requires Search(path) == Some(m)
    ensures var dir := path[..m.start];
            var occurrence := TokenText(path, m);
            Resolve(f, path, listing)
              == if dir !in listing then Failure(FileNotFound(dir))
                 else match FirstAccepted(f, listing[dir], path[m.nameEnd + 2..m.argEnd], 0)
                   case Some(j) => Success(ReplaceAll(path, occurrence, listing[dir][j]))
                   case None => Success(occurrence)
  {
    FindLocatesMatch(path, m);
    OwnArgument(path, m);
    var dir := path[..m.start];
    if dir in listing {
      var arg := path[m.nameEnd + 2..m.argEnd];
      assert TokenText(path, m)[m.nameEnd - m.start + 2..m.argEnd - m.start] == arg;
    }
  }

  /** Searching the token text again finds the token at its start, with the
      same argument. */
  lemma OwnArgument(path: string, m: Match)
    requires Search(path) == Some(m)
    ensures var own := Match(0, m.nameEnd - m.start, m.argEnd - m.start);
            Search(TokenText(path, m)) == Some(own)
            && TokenText(path, m)[own.nameEnd + 2..own.argEnd] == path[m.nameEnd + 2..m.argEnd]
  {
    SearchOwnText(path, m);
    SliceOfSlice(path, m.start, m.End(), m.nameEnd - m.start + 2, m.argEnd - m.start);
  }

  /** Without a token in the path the resolver fails: `re.search` gives None. */
  lemma ResolveNoToken(f: Function, path: string, listing: Listing)
    requires Search(path).None?
    ensures Resolve(f, path, listing) == Failure(AttributeError)
  {
  }

  /** The directory named by the text before the token must exist. */
  lemma ResolveMissingDirectory(f: Function, path: string, listing: Listing, m: Match)
    requires Search(path) == Some(m)
    requires path[..m.start] !in listing
    ensures Resolve(f, path, listing) == Failure(FileNotFound(path[..m.start]))
  {
    ResolveUnfold(f, path, listing, m);
  }

  /** When an entry is accepted, the text before the token is kept, the token
      becomes the first accepted entry, and every later copy of the token text
      is replaced by it too. */
  lemma ResolveFound(f: Function, path: string, listing: Listing, m: Match, j: nat)
    requires Search(path) == Some(m)
    requires path[..m.start] in listing
    requires FirstAccepted(f, listing[path[..m.start]], path[m.nameEnd + 2..m.argEnd], 0) == Some(j)
    ensures var entry := listing[path[..m.start]][j];
            Resolve(f, path, listing)
              == Success(path[..m.start] + entry + ReplaceAll(path[m.End()..], TokenText(path, m), entry))
    ensures m.End() == |path| ==>
              Resolve(f, path, listing) == Success(path[..m.start] + listing[path[..m.start]][j])
  {
    var entry := listing[path[..m.start]][j];
    var occurrence := TokenText(path, m);
    assert Resolve(f, path, listing) == Success(ReplaceAll(path, occurrence, entry)) by {
      ResolveUnfold(f, path, listing, m);
    }
    ReplaceAfterToken(path, m, entry);
    if m.End() == |path| {
      assert path[m.End()..] == [];
      assert path[..m.start] + entry + [] == path[..m.start] + entry;
    }
  }

  /** Replacing the token text starts at the token itself. */
  lemma ReplaceAfterToken(path: string, m: Match, entry: string)
    requires Search(path) == Some(m)
    ensures ReplaceAll(path, TokenText(path, m), entry)
              == path[..m.start] + entry + ReplaceAll(path[m.End()..], TokenText(path, m), entry)
  {
    FindLocatesMatch(path, m);
    ReplaceAllAtFind(path, TokenText(path, m), entry, m.start);
  }

  /** When no entry is accepted the result is the token text alone, not the path. */
  lemma ResolveUnmatched(f: Function, path: string, listing: Listing, m: Match)
    requires Search(path) == Some(m)
    requires path[..m.start] in listing
    requires FirstAccepted(f, listing[path[..m.start]], path[m.nameEnd + 2..m.argEnd], 0).None?
    ensures Resolve(f, path, listing) == Success(TokenText(path, m))
  {
    ResolveUnfold(f, path, listing, m);
  }

  /** The argument is greedy: two tokens written without whitespace between
      them are read as one token, whose argument runs from the first token's
      argument to the end of the second one's. */
  lemma AdjacentTokensReadAsOne(a: string, na: nat, ka: nat, b: string, nb: nat, kb: nat)
    requires PatternAt(a, 0, na, ka) && ka + 2 == |a|
    requires PatternAt(b, 0, nb, kb) && kb + 2 == |b|
    ensures MatchAt(a + b, 0) == Some(Match(0, na, |a| + kb))
  {
    var s := a + b;
    forall j | 0 <= j < |a| ensures s[j] == a[j] { }
    forall j | |a| <= j < |s| ensures s[j] == b[j - |a|] { }
    forall j | na + 2 <= j < |a| + kb ensures !IsSpace(s[j]) {
      if j < ka {
      } else if j < |a| {
        DelimitersAreNotSpace(s[j]);
      } else if j - |a| < nb + 2 {
        DelimitersAreNotSpace(s[j]);
      }
    }
    assert PatternAt(s, 0, na, |a| + kb);
    var r := MatchAt(s, 0);
    MatchAtSpec(s, 0);
    NameEndUnique(s, 0, na, |a| + kb, r.value.nameEnd, r.value.argEnd);
  }

  /** The sample location `/c/${ENDS_WITH='conf'}`: a directory followed by
      one token. */
  const ExampleDir: string := "/c/"
  const ExampleTokenText: string := "${ENDS_WITH='conf'}"
  const ExamplePath: string := ExampleDir + ExampleTokenText

  /** The token text alone matches the pattern with name `ENDS_WITH`. */
  lemma ExampleTokenPattern(t: string)
    requires t == ExampleTokenText
    ensures PatternAt(t, 0, 11, 17)
  {
    assert t[0] == '$' && t[1] == '{' && t[11] == '=' && t[12] == '\'' && t[17] == '\'' && t[18] == '}';
    assert forall j :: 2 <= j < 11 ==> IsWordChar(t[j]);
    assert forall j :: 13 <= j < 17 ==> !IsSpace(t[j]);
  }

  lemma ExamplePattern(p: string)
    requires p == ExamplePath
    ensures PatternAt(p, 3, 14, 20)
  {
    var t := ExampleTokenText;
    ExampleTokenPattern(t);
    assert p[3..22] == t[0..19];
    PatternShift(t, 0, 11, 17, p, 3);
  }

  lemma ExampleMatch(p: string)
    requires p == ExamplePath
    ensures MatchAt(p, 3) == Some(Match(3, 14, 20))
  {
    ExamplePattern(p);
    var r := MatchAt(p, 3);
    MatchAtSpec(p, 3);
    NameEndUnique(p, 3, 14, 20, r.value.nameEnd, r.value.argEnd);
  }

  /** A position that does not hold `$` starts no token, so the search moves on. */
  lemma SearchSkip(s: string, from: nat)
    requires from < |s| && s[from] != '$'
    ensures SearchFrom(s, from) == SearchFrom(s, from + 1)
  {
  }

  /** A position that starts a token is where the search stops. */
  lemma SearchHit(s: string, from: nat)
    requires from < |s| && MatchAt(s, from).Some?
    ensures SearchFrom(s, from) == MatchAt(s, from)
  {
  }

  /** The token in the example path: `${ENDS_WITH='conf'}` after `/c/`. */
  lemma ExampleToken(p: string)
    requires p == ExamplePath
    ensures Search(p) == Some(Match(3, 14, 20))
    ensures p[..3] == ExampleDir && p[16..20] == "conf"
    ensures TokenText(p, Match(3, 14, 20)) == ExampleTokenText
  {
    ExampleMatch(p);
    SearchHit(p, 3);
    SearchSkip(p, 2);
    SearchSkip(p, 1);
    SearchSkip(p, 0);
    assert p[16..20] == ExampleTokenText[13..17];
    assert p[3..22] == ExampleTokenText;
  }

  lemma EndsWithFoundShape(p: string, listing: Listing)
    requires p == ExamplePath && listing == map["/c/" := ["notes", "app.conf", "b.conf"]]
    ensures p[..3] in listing && EndsWith(p, listing) == Success(p[..3] + listing[p[..3]][1])
  {
    ExampleToken(p);
    assert !HasSuffix("notes", "conf") && HasSuffix("app.conf", "conf");
    assert FirstAccepted(EndsWithFunction, listing[p[..3]], p[16..20], 0) == Some(1);
    ResolveFound(EndsWithFunction, p, listing, Match(3, 14, 20), 1);
  }

  lemma JoinExample(dir: string, entry: string)
    requires dir == "/c/" && entry == "app.conf"
    ensures dir + entry == "/c/app.conf"
  {
  }

  /** `ends_with` resolves to the first entry that ends with the argument. */
  lemma EndsWithFoundExample(p: string, listing: Listing)
    requires p == ExamplePath && listing == map["/c/" := ["notes", "app.conf", "b.conf"]]
    ensures EndsWith(p, listing) == Success("/c/app.conf")
  {
    EndsWithFoundShape(p, listing);
    ExampleToken(p);
    JoinExample(p[..3], listing[p[..3]][1]);
  }

  /** `ends_with` with no accepted entry returns the token text alone. */
  lemma EndsWithUnmatchedExample(p: string, listing: Listing)
    requires p == ExamplePath && listing == map["/c/" := ["notes"]]
    ensures EndsWith(p, listing) == Success(ExampleTokenText)
  {
    ExampleToken(p);
    assert !HasSuffix("notes", "conf");
    assert FirstAccepted(EndsWithFunction, listing["/c/"], "conf", 0).None?;
    ResolveUnmatched(EndsWithFunction, p, listing, Match(3, 14, 20));
  }
}
