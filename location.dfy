/** What `ConfEntry.parse_keywords` and `ConfEntry.parse_functions`
    (konsave/config.py) compute from an entry's location: the keyword pass,
    which substitutes the table's directories for `$HOME`, `$CONFIG_DIR`,
    `$SHARE_DIR` and `$BIN_DIR`, and the function pass, which resolves the
    `${NAME='ARG'}` tokens against a directory listing. */
module Location {
  import opened Wrappers
  import opened Text
  import opened Parse

  /** The marker of a keyword: `TOKEN_SYMBOL + key`. */
  function Marker(name: string): (w: string)
    ensures |w| == |name| + 1 && w[0] == '$' && w[1..] == name
  {
    TokenSymbol + name
  }

  // ---------------------------------------------------------------------------
  // The keyword pass

  /** The keyword pass: for each keyword in table order, when its marker
      occurs in the location as it stands, every occurrence is replaced by the
      keyword's value. */
  function ExpandKeywords(loc: string, table: seq<(string, string)>): string
    decreases |table|
  {
    if table == [] then loc
    else
      var word := Marker(table[0].0);
      ExpandKeywords(if Contains(loc, word) then ReplaceAll(loc, word, table[0].1) else loc, table[1..])
  }

  /** The same replacements, one after the other, without the `in` test. */
  function ReplaceEach(loc: string, table: seq<(string, string)>): string
    decreases |table|
  {
    if table == [] then loc
    else ReplaceEach(ReplaceAll(loc, Marker(table[0].0), table[0].1), table[1..])
  }

  /** The `in` test in front of `replace` changes nothing: the keyword pass is
      a chain of unconditional replacements in table order. */
  lemma {:induction false} ExpandKeywordsIsReplaceEach(loc: string, table: seq<(string, string)>)
    ensures ExpandKeywords(loc, table) == ReplaceEach(loc, table)
    decreases |table|
  {
    if table != [] {
      var word := Marker(table[0].0);
      if !Contains(loc, word) {
        ReplaceAllAbsent(loc, word, table[0].1);
      }
      ExpandKeywordsIsReplaceEach(ReplaceAll(loc, word, table[0].1), table[1..]);
    }
  }

  /** A location holding no marker of the table is left as it is. */
  lemma {:induction false} ExpandKeywordsWithoutMarkers(loc: string, table: seq<(string, string)>)
    requires forall i :: 0 <= i < |table| ==> !Contains(loc, Marker(table[i].0))
    ensures ExpandKeywords(loc, table) == loc
    decreases |table|
  {
    if table != [] {
      ExpandKeywordsWithoutMarkers(loc, table[1..]);
    }
  }

  /** The pass over a table is the pass over its first part followed by the
      pass over the rest, applied to the partly expanded location. */
  lemma {:induction false} ExpandKeywordsSplit(loc: string, t1: seq<(string, string)>, t2: seq<(string, string)>)
    ensures ExpandKeywords(loc, t1 + t2) == ExpandKeywords(ExpandKeywords(loc, t1), t2)
    decreases |t1|
  {
    if t1 != [] {
      assert (t1 + t2)[0] == t1[0];
      assert (t1 + t2)[1..] == t1[1..] + t2;
      var word := Marker(t1[0].0);
      var next := if Contains(loc, word) then ReplaceAll(loc, word, t1[0].1) else loc;
      assert ExpandKeywords(loc, t1 + t2) == ExpandKeywords(next, t1[1..] + t2);
      assert ExpandKeywords(loc, t1) == ExpandKeywords(next, t1[1..]);
      ExpandKeywordsSplit(next, t1[1..], t2);
    } else {
      assert t1 + t2 == t2;
    }
  }

  /** A marker at the front of the location, of a keyword whose marker
      occurs nowhere else, is replaced by the keyword's value. */
  lemma MarkerAtFront(name: string, value: string, rest: string)
    requires !Contains(rest, Marker(name))
    ensures ExpandKeywords(Marker(name) + rest, [(name, value)]) == value + rest
  {
    var w := Marker(name);
    var loc := w + rest;
    assert loc[..|w|] == w;
    assert loc[|w|..] == rest;
    assert OccursAt(loc, w, 0);
    ReplaceAllAtFirst(loc, w, value, 0);
    ReplaceAllAbsent(rest, w, value);
    assert [(name, value)][1..] == [];
  }

  /** The pass is sequential: the value of `HOME` may itself hold a later
      keyword's marker, and that marker is expanded in turn. */
  lemma KeywordsAreSequential(d: Dirs)
    requires d == Dirs("$BIN_DIR", "/c", "/s", "/b")
    ensures ExpandKeywords("$HOME/x", KeywordTable(d)) == "/b/x"
  {
    var table := KeywordTable(d);
    var afterHome := "$BIN_DIR" + "/x";
    assert table == [table[0]] + [table[1], table[2]] + [table[3]];
    assert ExpandKeywords("$HOME/x", [table[0]]) == afterHome by {
      assert "$HOME/x" == Marker("HOME") + "/x";
      MarkerBeforeSlash("HOME", "$BIN_DIR", "/x");
    }
    assert ExpandKeywords(afterHome, [table[1], table[2]]) == afterHome by {
      BinMarkerKept(afterHome, d.configDir, d.shareDir);
    }
    assert ExpandKeywords(afterHome, [table[3]]) == "/b/x" by {
      assert afterHome == Marker("BIN_DIR") + "/x";
      MarkerBeforeSlash("BIN_DIR", "/b", "/x");
    }
    ExpandKeywordsSplit("$HOME/x", [table[0]], [table[1], table[2]] + [table[3]]);
    ExpandKeywordsSplit(afterHome, [table[1], table[2]], [table[3]]);
  }

  /** The `$BIN_DIR` marker holds neither `$CONFIG_DIR` nor `$SHARE_DIR`. */
  lemma BinMarkerKept(loc: string, configDir: string, shareDir: string)
    requires loc == "$BIN_DIR" + "/x"
    ensures ExpandKeywords(loc, [("CONFIG_DIR", configDir), ("SHARE_DIR", shareDir)]) == loc
  {
    var table := [("CONFIG_DIR", configDir), ("SHARE_DIR", shareDir)];
    NotAfterDollar(loc, Marker(table[0].0), 1);
    NotAfterDollar(loc, Marker(table[1].0), 1);
    ExpandKeywordsWithoutMarkers(loc, table);
  }

  /** A marker at the front of a rest without `$` is replaced by its value. */
  lemma MarkerBeforeSlash(name: string, value: string, rest: string)
    requires '$' !in rest
    ensures ExpandKeywords(Marker(name) + rest, [(name, value)]) == value + rest
  {
    LacksCharacter(rest, Marker(name), 0);
    MarkerAtFront(name, value, rest);
  }

  /** `s` has a single `$`, at its front, and the character after it differs
      from the one after the `$` of `pat`. */
  lemma NotAfterDollar(s: string, pat: string, j: nat)
    requires |s| > 1 && |pat| > 1 && s[0] == '$' && pat[0] == '$' && j == 1
    requires '$' !in s[1..] && s[1] != pat[1]
    ensures !Contains(s, pat)
  {
  }

  /** As written the table's values are `pathlib.Path` objects
      (konsave/consts.py:9-12), and `str.replace` accepts only strings: the
      first keyword whose marker occurs raises TypeError. */
  function ExpandKeywordsAsWritten(loc: string, names: seq<string>): (r: Result<string, Error>)
    decreases |names|
  {
    if names == [] then Success(loc)
    else if Contains(loc, Marker(names[0])) then Failure(TypeError)
    else ExpandKeywordsAsWritten(loc, names[1..])
  }

  /** As written, the keyword pass fails exactly when some marker occurs, and
      otherwise leaves the location as it is: it never expands anything. */
  lemma {:induction false} AsWrittenNeverExpands(loc: string, names: seq<string>)
    ensures ExpandKeywordsAsWritten(loc, names).Failure?
        <==> exists i :: 0 <= i < |names| && Contains(loc, Marker(names[i]))
    ensures ExpandKeywordsAsWritten(loc, names).Success? ==> ExpandKeywordsAsWritten(loc, names).value == loc
    ensures ExpandKeywordsAsWritten(loc, names).Failure? ==> ExpandKeywordsAsWritten(loc, names).error == TypeError
    decreases |names|
  {
    if names != [] {
      AsWrittenNeverExpands(loc, names[1..]);
      if exists i :: 0 <= i < |names| && Contains(loc, Marker(names[i])) {
        var i :| 0 <= i < |names| && Contains(loc, Marker(names[i]));
        if i > 0 {
          assert names[1..][i - 1] == names[i];
        }
      }
    }
  }

  /** `$HOME/.bashrc`: as written the pass raises TypeError. */
  lemma HomeMarkerAsWritten(loc: string)
    requires loc == "$HOME/.bashrc"
    ensures ExpandKeywordsAsWritten(loc, KeywordNames) == Failure(TypeError)
  {
    assert loc == Marker("HOME") + "/.bashrc";
    assert OccursAt(loc, Marker("HOME"), 0);
  }

  /** A location that starts with the first keyword's marker and holds no
      marker after it becomes the first keyword's value followed by the rest,
      when that value brings in no marker of a later keyword. */
  lemma FirstMarkerOnly(name: string, value: string, rest: string, later: seq<(string, string)>)
    requires !Contains(rest, Marker(name))
    requires forall i :: 0 <= i < |later| ==> !Contains(value + rest, Marker(later[i].0))
    ensures ExpandKeywords(Marker(name) + rest, [(name, value)] + later) == value + rest
  {
    MarkerAtFront(name, value, rest);
    ExpandKeywordsSplit(Marker(name) + rest, [(name, value)], later);
    ExpandKeywordsWithoutMarkers(value + rest, later);
  }

  /** `$HOME/.bashrc`: with the values passed as strings, the pass gives the
      file in the home directory. */
  lemma HomeMarkerExpanded(d: Dirs)
    requires d == Dirs("/h", "/h/.config", "/h/.local/share", "/h/.local/bin")
    ensures ExpandKeywords(Marker("HOME") + "/.bashrc", KeywordTable(d)) == "/h/.bashrc"
  {
    var table := KeywordTable(d);
    assert table == [("HOME", "/h")] + table[1..];
    LacksCharacter("/.bashrc", Marker("HOME"), 0);
    NoMarkerWithoutDollar("/h" + "/.bashrc", table[1..]);
    FirstMarkerOnly("HOME", "/h", "/.bashrc", table[1..]);
  }

  /** A text without `$` holds no keyword's marker. */
  lemma NoMarkerWithoutDollar(loc: string, table: seq<(string, string)>)
    requires '$' !in loc
    ensures forall i :: 0 <= i < |table| ==> !Contains(loc, Marker(table[i].0))
  {
    forall i | 0 <= i < |table| ensures !Contains(loc, Marker(table[i].0)) {
      LacksCharacter(loc, Marker(table[i].0), 0);
    }
  }

  // ---------------------------------------------------------------------------
  // The function pass

  /** `re.search(grouped_regex, match).group(1)`: the name of the token a text
      holds; `None` where `search` finds none and `.group` would raise. */
  function TokenName(t: string): Option<string> {
    match Search(t)
    case None => None
    case Some(m) => Some(t[m.start + 2..m.nameEnd])
  }

  /** The loop of `parse_functions` over the token texts found in the
      location: a text naming a resolver replaces the location by what the
      resolver makes of the location as it stands; other names are skipped. */
  function ApplyTokens(loc: string, texts: seq<string>, listing: Listing): (r: Result<string, Error>)
    decreases |texts|
  {
    if texts == [] then Success(loc)
    else match TokenName(texts[0])
      case None => Failure(AttributeError)
      case Some(name) =>
        match LookupFunction(name)
        case None => ApplyTokens(loc, texts[1..], listing)
        case Some(f) =>
          match Resolve(f, loc, listing)
          case Failure(e) => Failure(e)
          case Success(next) => ApplyTokens(next, texts[1..], listing)
  }

  /** The function pass: `re.findall` over the location, then the loop. */
  function ResolveFunctions(loc: string, listing: Listing): Result<string, Error> {
    ApplyTokens(loc, FindAll(loc), listing)
  }

  /** Each text `findall` returns is a token whose name is the name in the
      location, so the `.group(1)` of the loop never fails. */
  lemma {:induction false} FindAllAreTokens(s: string, from: nat)
    ensures forall i :: 0 <= i < |FindAllFrom(s, from)| ==> TokenName(FindAllFrom(s, from)[i]).Some?
    decreases |s| - from
  {
    match SearchFrom(s, from)
    case None =>
    case Some(m) =>
      SearchOwnText(s, m);
      var t := TokenText(s, m);
      assert TokenName(t).Some?;
      FindAllAreTokens(s, m.End());
      assert FindAllFrom(s, from) == [t] + FindAllFrom(s, m.End());
  }

  /** The text names one of the table's resolvers. */
  predicate NamesResolver(t: string) {
    TokenName(t).Some? && LookupFunction(TokenName(t).value).Some?
  }

  lemma {:induction false} ApplyUnknownNames(loc: string, texts: seq<string>, listing: Listing)
    requires forall i :: 0 <= i < |texts| ==> TokenName(texts[i]).Some? && !NamesResolver(texts[i])
    ensures ApplyTokens(loc, texts, listing) == Success(loc)
    decreases |texts|
  {
    if texts != [] {
      ApplyUnknownNames(loc, texts[1..], listing);
    }
  }

  /** The function pass calls a resolver only for the names `ENDS_WITH` and
      `BEGINS_WITH`: a location whose tokens all carry other names, or that
      holds no token, is left as it is. */
  lemma ResolveFunctionsUnknownNames(loc: string, listing: Listing)
    requires forall i :: 0 <= i < |FindAll(loc)| ==> !NamesResolver(FindAll(loc)[i])
    ensures ResolveFunctions(loc, listing) == Success(loc)
  {
    FindAllAreTokens(loc, 0);
    ApplyUnknownNames(loc, FindAll(loc), listing);
  }

  lemma ResolveFunctionsNoToken(loc: string, listing: Listing)
    requires Search(loc).None?
    ensures ResolveFunctions(loc, listing) == Success(loc)
  {
    assert FindAll(loc) == [];
  }

  /** `findall` on the sample location returns its one token. */
  lemma ExampleFindAll(p: string)
    requires p == ExamplePath
    ensures FindAll(p) == [ExampleTokenText]
  {
    ExampleToken(p);
    var m := Match(3, 14, 20);
    assert |p| == m.End();
    assert FindAllFrom(p, m.End()) == [];
    assert SearchFrom(p, 0) == Some(m);
    assert FindAllFrom(p, 0) == [TokenText(p, m)] + FindAllFrom(p, m.End());
  }

  /** `.group(1)` of a token's own text is the name the token has in place. */
  lemma TokenNameOfMatch(s: string, m: Match)
    requires MatchAt(s, m.start) == Some(m)
    ensures TokenName(TokenText(s, m)) == Some(s[m.start + 2..m.nameEnd])
  {
    SearchOwnText(s, m);
    SliceOfSlice(s, m.start, m.End(), 2, m.nameEnd - m.start);
  }

  /** `.group(1)` of the sample token is `ENDS_WITH`. */
  lemma ExampleTokenName(t: string)
    requires t == ExampleTokenText
    ensures TokenName(t) == Some("ENDS_WITH")
  {
    ExampleTokenPattern(t);
    var r := MatchAt(t, 0);
    NameEndUnique(t, 0, 11, 17, r.value.nameEnd, r.value.argEnd);
    SearchHit(t, 0);
    assert t[2..11] == "ENDS_WITH";
  }

  /** The function pass on `/c/${ENDS_WITH='conf'}`: the token names
      `ends_with`, which picks the first entry of `/c/` ending with `conf`. */
  lemma FunctionPassExample(p: string, listing: Listing)
    requires p == ExamplePath && listing == map["/c/" := ["notes", "app.conf", "b.conf"]]
    ensures ResolveFunctions(p, listing) == Success("/c/app.conf")
  {
    ExampleFindAll(p);
    ExampleTokenName(ExampleTokenText);
    EndsWithFoundExample(p, listing);
    assert ApplyTokens("/c/app.conf", [], listing) == Success("/c/app.conf");
  }
}
