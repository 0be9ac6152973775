/** The manifest of konsave/config.py as values: what `from_dict` builds from
    the parsed document and what `to_dict` writes back, for strip entries,
    configuration entries, sections and the whole configuration. The classes
    that hold these values in place are in module `Config`. */
module Manifest {
  import opened Wrappers
  import opened Yaml
  import opened Parse
  import opened Location

  // ---------------------------------------------------------------------------
  // StripEntry

  /** `StripEntry`: the file it applies to and the two lists, as parsed. */
  datatype StripEntry = StripEntry(fileName: string, keys: Yaml, groups: Yaml) {
    /** The body `to_dict` writes under the file name. */
    function Body(): Yaml {
      Map([("groups", groups), ("keys", keys)])
    }

    /** `StripEntry.to_dict`. */
    function ToDict(): (d: Yaml)
      ensures d.Map? && Keys(d.items) == [fileName] && Get(d.items, fileName) == Some(Body())
    {
      Map([(fileName, Body())])
    }
  }

  /** `StripEntry.from_dict`: `data["groups"]` is read before `data["keys"]`;
      indexing anything but a mapping with a string raises TypeError. */
  function StripFromDict(name: string, data: Yaml): (r: Result<StripEntry, Error>)
    ensures !data.Map? ==> r == Failure(TypeError)
    ensures r.Success? ==> r.value.fileName == name
    ensures data.Map? && "groups" !in Keys(data.items) ==> r == Failure(KeyError("groups"))
    ensures data.Map? && "groups" in Keys(data.items) && "keys" !in Keys(data.items) ==>
              r == Failure(KeyError("keys"))
    ensures r.Success? ==>
              r.value.ToDict() == Map([(name, Map([("groups", Get(data.items, "groups").value),
                                                   ("keys", Get(data.items, "keys").value)]))])
  {
    if !data.Map? then Failure(TypeError)
    else match Get(data.items, "groups")
      case None => Failure(KeyError("groups"))
      case Some(groups) =>
        match Get(data.items, "keys")
        case None => Failure(KeyError("keys"))
        case Some(keys) => Success(StripEntry(name, keys, groups))
  }

  /** The list comprehension over `data["strip"].keys()`: one strip entry per
      key, in order; the first failure is the one raised. */
  function StripsFromItems(kvs: seq<(string, Yaml)>): (r: Result<seq<StripEntry>, Error>)
    ensures r.Success? ==> |r.value| == |kvs|
    ensures r.Success? ==> forall i :: 0 <= i < |kvs| ==> StripFromDict(kvs[i].0, kvs[i].1) == Success(r.value[i])
    ensures r.Failure? ==> exists i :: 0 <= i < |kvs| && StripFromDict(kvs[i].0, kvs[i].1) == Failure(r.error)
  {
    if kvs == [] then Success([])
    else match StripFromDict(kvs[0].0, kvs[0].1)
      case Failure(e) => Failure(e)
      case Success(s) =>
        match StripsFromItems(kvs[1..])
        case Failure(e) => Failure(e)
        case Success(rest) => Success([s] + rest)
  }

  /** `data["strip"].keys()` needs a mapping: anything else, including the
      empty list a null `strip` became, raises AttributeError. */
  function StripsFromDict(strip: Yaml): Result<seq<StripEntry>, Error> {
    if !strip.Map? then Failure(AttributeError) else StripsFromItems(strip.items)
  }

  /** `strips.update(strip.to_dict())` over the strips in order. */
  function StripsDict(strips: seq<StripEntry>): seq<(string, Yaml)>
    decreases |strips|
  {
    if strips == [] then []
    else
      var last := strips[|strips| - 1];
      Update(StripsDict(strips[..|strips| - 1]), last.ToDict().items)
  }

  /** The `"strip"` block is written back exactly when there is a strip entry. */
  lemma {:induction false} StripsDictEmpty(strips: seq<StripEntry>)
    ensures StripsDict(strips) == [] <==> strips == []
    decreases |strips|
  {
    if strips != [] {
      var last := strips[|strips| - 1];
      var init := StripsDict(strips[..|strips| - 1]);
      UpdateOne(init, last.fileName, last.Body());
      PutGet(init, last.fileName, last.Body());
      assert Get(StripsDict(strips), last.fileName).Some?;
    }
  }

  // ---------------------------------------------------------------------------
  // ConfEntry

  /** The state of a `ConfEntry`: its name, the location after both passes,
      the location as written, the entry names and the strip entries. */
  datatype EntryState = EntryState(
    name: string, location: string, locationOriginal: string, entries: Yaml, strips: seq<StripEntry>)

  /** The error `parse_keywords` and `parse_functions` raise on a location
      that is not a string: a list or mapping that holds a marker reaches
      `.replace` (AttributeError), every other value fails in `in` or in
      `re.findall` (TypeError). */
  function LocationError(loc: Yaml): (e: Error)
    ensures e == AttributeError || e == TypeError
  {
    match loc
    case List(xs) =>
      if exists i, j :: 0 <= i < |xs| && 0 <= j < |KeywordNames| && xs[i] == Str(Marker(KeywordNames[j]))
      then AttributeError else TypeError
    case Map(kvs) =>
      if exists j :: 0 <= j < |KeywordNames| && Marker(KeywordNames[j]) in Keys(kvs)
      then AttributeError else TypeError
    case _ => TypeError
  }

  /** The location `__post_init__` computes: the keyword pass, then the
      function pass. */
  function ResolveLocation(loc: string, dirs: Dirs, listing: Listing): Result<string, Error> {
    ResolveFunctions(ExpandKeywords(loc, KeywordTable(dirs)), listing)
  }

  /** `ConfEntry.from_dict` followed by `__post_init__`: the strips are read
      first, then `location`, then `entries`, then the location is resolved. */
  function EntryFromDict(name: string, data: Yaml, dirs: Dirs, listing: Listing): Result<EntryState, Error> {
    if !data.Map? then Failure(TypeError)
    else
      var strips :- if "strip" in Keys(data.items) then StripsFromDict(Get(data.items, "strip").value)
                    else Success([]);
      match Get(data.items, "location")
      case None => Failure(KeyError("location"))
      case Some(loc) =>
        match Get(data.items, "entries")
        case None => Failure(KeyError("entries"))
        case Some(entries) =>
          if !loc.Str? then Failure(LocationError(loc))
          else
            var resolved :- ResolveLocation(loc.s, dirs, listing);
            Success(EntryState(name, resolved, loc.s, entries, strips))
  }

  /** The errors `from_dict` raises first: a mapping is needed, and
      `location` is looked up when there are no strips to read. */
  lemma EntryFromDictFails(name: string, data: Yaml, dirs: Dirs, listing: Listing)
    ensures !data.Map? ==> EntryFromDict(name, data, dirs, listing) == Failure(TypeError)
    ensures data.Map? && "strip" !in Keys(data.items) && "location" !in Keys(data.items) ==>
              EntryFromDict(name, data, dirs, listing) == Failure(KeyError("location"))
  {
  }

  /** An entry that reads keeps its name, the location as written and its
      resolution, the entry names and the strips read. */
  lemma EntryFromDictReads(name: string, data: Yaml, dirs: Dirs, listing: Listing, e: EntryState)
    requires EntryFromDict(name, data, dirs, listing) == Success(e)
    ensures e.name == name
    ensures Get(data.items, "location") == Some(Str(e.locationOriginal))
    ensures Get(data.items, "entries") == Some(e.entries)
    ensures ResolveLocation(e.locationOriginal, dirs, listing) == Success(e.location)
    ensures "strip" !in Keys(data.items) ==> e.strips == []
    ensures "strip" in Keys(data.items) ==> StripsFromDict(Get(data.items, "strip").value) == Success(e.strips)
  {
  }

  /** The body `ConfEntry.to_dict` writes under the entry's name: the location
      as written, never the resolved one, the entry names, and the strips
      only when there are any. */
  function EntryBody(e: EntryState): seq<(string, Yaml)> {
    var base := [("location", Str(e.locationOriginal)), ("entries", e.entries)];
    var strips := StripsDict(e.strips);
    if strips == [] then base else base + [("strip", Map(strips))]
  }

  lemma EntryBodyShape(e: EntryState)
    ensures Get(EntryBody(e), "location") == Some(Str(e.locationOriginal))
    ensures Get(EntryBody(e), "entries") == Some(e.entries)
    ensures "strip" in Keys(EntryBody(e)) <==> e.strips != []
    ensures e.strips != [] ==> Get(EntryBody(e), "strip") == Some(Map(StripsDict(e.strips)))
    ensures UniqueKeys(EntryBody(e)) && |EntryBody(e)| == if e.strips == [] then 2 else 3
  {
    StripsDictEmpty(e.strips);
    var body := EntryBody(e);
    assert Keys(body)[0] == "location" && Keys(body)[1] == "entries";
    assert e.strips != [] ==> Keys(body)[2] == "strip";
    GetAt(body, 0);
    GetAt(body, 1);
    if e.strips != [] {
      GetAt(body, 2);
    }
  }

  /** What `to_dict` writes back for an entry `from_dict` read: the location
      and the entry names exactly as they were read, whatever the location
      resolved to, and no `strip` key unless one was read. */
  lemma EntryWriteBack(name: string, data: Yaml, dirs: Dirs, listing: Listing)
    requires EntryFromDict(name, data, dirs, listing).Success?
    ensures Get(EntryBody(EntryFromDict(name, data, dirs, listing).value), "location") == Get(data.items, "location")
    ensures Get(EntryBody(EntryFromDict(name, data, dirs, listing).value), "entries") == Get(data.items, "entries")
    ensures "strip" !in Keys(data.items) ==> "strip" !in Keys(EntryBody(EntryFromDict(name, data, dirs, listing).value))
  {
    EntryFromDictReads(name, data, dirs, listing, EntryFromDict(name, data, dirs, listing).value);
    EntryBodyShape(EntryFromDict(name, data, dirs, listing).value);
  }

  /** `ConfEntry.to_dict`. */
  function EntryToDict(e: EntryState): Yaml {
    Map([(e.name, Map(EntryBody(e)))])
  }

  // ---------------------------------------------------------------------------
  // Section

  /** The state of a `Section`: its name and its entries in key order. */
  datatype SectionState = SectionState(name: string, entries: seq<EntryState>)

  /** The list comprehension of `Section.from_dict`. */
  function EntriesFromItems(kvs: seq<(string, Yaml)>, dirs: Dirs, listing: Listing): (r: Result<seq<EntryState>, Error>)
    ensures r.Success? ==> |r.value| == |kvs|
  {
    if kvs == [] then Success([])
    else match EntryFromDict(kvs[0].0, kvs[0].1, dirs, listing)
      case Failure(e) => Failure(e)
      case Success(x) =>
        match EntriesFromItems(kvs[1..], dirs, listing)
        case Failure(e) => Failure(e)
        case Success(rest) => Success([x] + rest)
  }

  /** A section that reads makes one entry per key, in order, from the value
      under that key. */
  lemma {:induction false} EntriesFromItemsEach(kvs: seq<(string, Yaml)>, dirs: Dirs, listing: Listing, i: int)
    requires EntriesFromItems(kvs, dirs, listing).Success? && 0 <= i < |kvs|
    ensures EntryFromDict(kvs[i].0, kvs[i].1, dirs, listing) == Success(EntriesFromItems(kvs, dirs, listing).value[i])
    decreases |kvs|
  {
    var first := EntryFromDict(kvs[0].0, kvs[0].1, dirs, listing);
    var rest := EntriesFromItems(kvs[1..], dirs, listing);
    assert first.Success? && rest.Success?;
    assert EntriesFromItems(kvs, dirs, listing).value == [first.value] + rest.value;
    if i > 0 {
      assert kvs[1..][i - 1] == kvs[i];
      EntriesFromItemsEach(kvs[1..], dirs, listing, i - 1);
    }
  }

  /** `[x] + r` over a result: a failure stays that failure. */
  function Prefixed<T>(xs: seq<T>, r: Result<seq<T>, Error>): Result<seq<T>, Error> {
    match r
    case Failure(e) => Failure(e)
    case Success(ys) => Success(xs + ys)
  }

  lemma PrefixedTwice<T>(xs: seq<T>, ys: seq<T>, r: Result<seq<T>, Error>)
    ensures Prefixed(xs, Prefixed(ys, r)) == Prefixed(xs + ys, r)
  {
    if r.Success? {
      assert xs + (ys + r.value) == (xs + ys) + r.value;
    }
  }

  lemma PrefixedNothing<T>(r: Result<seq<T>, Error>)
    ensures Prefixed([], r) == r
  {
    if r.Success? {
      assert [] + r.value == r.value;
    }
  }

  /** One step of the comprehension: the entry at `i` fails, or is put in
      front of the entries after it. */
  lemma EntriesFromItemsStep(kvs: seq<(string, Yaml)>, i: int, dirs: Dirs, listing: Listing)
    requires 0 <= i < |kvs|
    ensures EntryFromDict(kvs[i].0, kvs[i].1, dirs, listing).Failure? ==>
              EntriesFromItems(kvs[i..], dirs, listing) == Failure(EntryFromDict(kvs[i].0, kvs[i].1, dirs, listing).error)
    ensures EntryFromDict(kvs[i].0, kvs[i].1, dirs, listing).Success? ==>
              EntriesFromItems(kvs[i..], dirs, listing)
              == Prefixed([EntryFromDict(kvs[i].0, kvs[i].1, dirs, listing).value], EntriesFromItems(kvs[i + 1..], dirs, listing))
  {
    assert kvs[i..][0] == kvs[i] && kvs[i..][1..] == kvs[i + 1..];
  }

  /** The comprehension read up to `i`, with the entry at `i` read as well. */
  lemma EntriesReadOneMore(kvs: seq<(string, Yaml)>, i: int, dirs: Dirs, listing: Listing,
                           before: seq<EntryState>, e: EntryState)
    requires 0 <= i < |kvs|
    requires EntriesFromItems(kvs, dirs, listing) == Prefixed(before, EntriesFromItems(kvs[i..], dirs, listing))
    requires EntryFromDict(kvs[i].0, kvs[i].1, dirs, listing) == Success(e)
    ensures EntriesFromItems(kvs, dirs, listing) == Prefixed(before + [e], EntriesFromItems(kvs[i + 1..], dirs, listing))
  {
    EntriesFromItemsStep(kvs, i, dirs, listing);
    PrefixedTwice(before, [e], EntriesFromItems(kvs[i + 1..], dirs, listing));
  }

  /** The comprehension read up to `i` stops at a failure at `i`. */
  lemma EntriesReadFails(kvs: seq<(string, Yaml)>, i: int, dirs: Dirs, listing: Listing, before: seq<EntryState>)
    requires 0 <= i < |kvs|
    requires EntriesFromItems(kvs, dirs, listing) == Prefixed(before, EntriesFromItems(kvs[i..], dirs, listing))
    requires EntryFromDict(kvs[i].0, kvs[i].1, dirs, listing).Failure?
    ensures EntriesFromItems(kvs, dirs, listing) == Failure(EntryFromDict(kvs[i].0, kvs[i].1, dirs, listing).error)
  {
    EntriesFromItemsStep(kvs, i, dirs, listing);
  }

  /** `Section.from_dict`: `data.keys()` needs a mapping. */
  function SectionFromDict(name: string, data: Yaml, dirs: Dirs, listing: Listing): (r: Result<SectionState, Error>)
    ensures !data.Map? ==> r == Failure(AttributeError)
    ensures r.Success? ==> r.value.name == name && data.Map?
    ensures r.Success? ==> EntriesFromItems(data.items, dirs, listing) == Success(r.value.entries)
  {
    if !data.Map? then Failure(AttributeError)
    else
      var entries :- EntriesFromItems(data.items, dirs, listing);
      Success(SectionState(name, entries))
  }

  /** `entries.update(entry.to_dict())` over the entries in order. */
  function EntriesDict(es: seq<EntryState>): seq<(string, Yaml)>
    decreases |es|
  {
    if es == [] then []
    else Update(EntriesDict(es[..|es| - 1]), EntryToDict(es[|es| - 1]).items)
  }

  lemma EntriesDictSnoc(es: seq<EntryState>, e: EntryState)
    ensures EntriesDict(es + [e]) == Update(EntriesDict(es), EntryToDict(e).items)
  {
    assert (es + [e])[..|es|] == es;
  }

  /** `Section.to_dict`. */
  function SectionToDict(s: SectionState): Yaml {
    Map([(s.name, Map(EntriesDict(s.entries)))])
  }

  // ---------------------------------------------------------------------------
  // Config

  /** The dict comprehension of `Config.__init__`, one section per key. */
  function SectionsFromItems(kvs: seq<(string, Yaml)>, dirs: Dirs, listing: Listing): (r: Result<seq<SectionState>, Error>)
    ensures r.Success? ==> |r.value| == |kvs|
    ensures r.Success? ==> forall i :: 0 <= i < |kvs| ==>
              SectionFromDict(kvs[i].0, kvs[i].1, dirs, listing) == Success(r.value[i])
  {
    if kvs == [] then Success([])
    else match SectionFromDict(kvs[0].0, kvs[0].1, dirs, listing)
      case Failure(e) => Failure(e)
      case Success(x) =>
        match SectionsFromItems(kvs[1..], dirs, listing)
        case Failure(e) => Failure(e)
        case Success(rest) =>
          assert forall i :: 1 <= i < |kvs| ==> kvs[1..][i - 1] == kvs[i];
          Success([x] + rest)
  }

  /** One step of the comprehension: the section at `i` fails, or is put in
      front of the sections after it. */
  lemma SectionsFromItemsStep(kvs: seq<(string, Yaml)>, i: int, dirs: Dirs, listing: Listing)
    requires 0 <= i < |kvs|
    ensures SectionFromDict(kvs[i].0, kvs[i].1, dirs, listing).Failure? ==>
              SectionsFromItems(kvs[i..], dirs, listing) == Failure(SectionFromDict(kvs[i].0, kvs[i].1, dirs, listing).error)
    ensures SectionFromDict(kvs[i].0, kvs[i].1, dirs, listing).Success? ==>
              SectionsFromItems(kvs[i..], dirs, listing)
              == Prefixed([SectionFromDict(kvs[i].0, kvs[i].1, dirs, listing).value], SectionsFromItems(kvs[i + 1..], dirs, listing))
  {
    assert kvs[i..][0] == kvs[i] && kvs[i..][1..] == kvs[i + 1..];
  }

  /** `Config.__init__` on the parsed document: nulls become empty lists, and
      `data.keys()` needs a mapping. */
  function LoadConfig(data: Yaml, dirs: Dirs, listing: Listing): (r: Result<seq<SectionState>, Error>)
    ensures !Normalize(data).Map? ==> r == Failure(AttributeError)
    ensures r.Success? ==> SectionsFromItems(Normalize(data).items, dirs, listing) == r
  {
    var d := Normalize(data);
    if !d.Map? then Failure(AttributeError) else SectionsFromItems(d.items, dirs, listing)
  }

  /** `self.sections.get(name)`. */
  function FindSection(ss: seq<SectionState>, name: string): (r: Option<SectionState>)
    ensures r.Some? ==> r.value in ss && r.value.name == name
    ensures r.None? ==> forall i :: 0 <= i < |ss| ==> ss[i].name != name
  {
    if ss == [] then None
    else if ss[0].name == name then Some(ss[0])
    else FindSection(ss[1..], name)
  }

  /** `Config.to_dict`: `save.to_dict()` is evaluated first, and a missing
      section is `None`, whose `.to_dict` raises AttributeError. */
  function ConfigToDict(ss: seq<SectionState>): (r: Result<Yaml, Error>)
    ensures FindSection(ss, "save").None? || FindSection(ss, "export").None? <==> r == Failure(AttributeError)
  {
    match FindSection(ss, "save")
    case None => Failure(AttributeError)
    case Some(save) =>
      match FindSection(ss, "export")
      case None => Failure(AttributeError)
      case Some(exported) =>
        Success(Map(Update(SectionToDict(save).items, SectionToDict(exported).items)))
  }

  // ---------------------------------------------------------------------------
  // Writing back what was read

  /** A strip block as `StripEntry.to_dict` writes it: the keys `groups` and
      `keys` and nothing else. */
  predicate IsStripBlock(v: Yaml) {
    v.Map? && UniqueKeys(v.items) && |v.items| == 2 &&
    "groups" in Keys(v.items) && "keys" in Keys(v.items)
  }

  /** A non-empty `strip` mapping of strip blocks. */
  predicate IsStripMap(v: Yaml) {
    v.Map? && UniqueKeys(v.items) && |v.items| > 0 &&
    forall i :: 0 <= i < |v.items| ==> IsStripBlock(v.items[i].1)
  }

  /** An entry as `ConfEntry.to_dict` writes it: `location` and `entries`,
      and `strip` only when it holds strip blocks. */
  predicate IsEntryBody(v: Yaml) {
    v.Map? && UniqueKeys(v.items) && "location" in Keys(v.items) && "entries" in Keys(v.items) &&
    if "strip" in Keys(v.items) then |v.items| == 3 && IsStripMap(Get(v.items, "strip").value)
    else |v.items| == 2
  }

  predicate IsSectionBody(v: Yaml) {
    v.Map? && UniqueKeys(v.items) && forall i :: 0 <= i < |v.items| ==> IsEntryBody(v.items[i].1)
  }

  /** A manifest with exactly the sections `save` and `export`, no nulls and
      entries in the shape `to_dict` writes. */
  predicate IsManifest(d: Yaml) {
    NoNulls(d) && d.Map? && UniqueKeys(d.items) && |d.items| == 2 &&
    "save" in Keys(d.items) && "export" in Keys(d.items) &&
    forall i :: 0 <= i < |d.items| ==> IsSectionBody(d.items[i].1)
  }

  lemma StripBlockRoundTrip(name: string, v: Yaml, s: StripEntry)
    requires IsStripBlock(v) && StripFromDict(name, v) == Success(s)
    ensures PyEq(v, s.Body())
  {
    var body := s.Body().items;
    assert Keys(body)[0] == "groups" && Keys(body)[1] == "keys";
    forall i | 0 <= i < |v.items|
      ensures Get(body, v.items[i].0).Some? && PyEq(v.items[i].1, Get(body, v.items[i].0).value)
    {
      GetAt(v.items, i);
      assert v.items[i].0 == "groups" || v.items[i].0 == "keys" by {
        assert Keys(v.items)[0] == v.items[0].0 && Keys(v.items)[1] == v.items[1].0;
      }
      PyEqReflexive(v.items[i].1);
    }
    PyEqByGet(v.items, body);
  }

  /** With distinct file names every strip entry adds its own key, in order. */
  lemma {:induction false} StripsDictDistinct(strips: seq<StripEntry>)
    requires forall i, j :: 0 <= i < j < |strips| ==> strips[i].fileName != strips[j].fileName
    ensures |StripsDict(strips)| == |strips|
    ensures forall i :: 0 <= i < |strips| ==> StripsDict(strips)[i] == (strips[i].fileName, strips[i].Body())
    decreases |strips|
  {
    if strips != [] {
      var n := |strips| - 1;
      var init := StripsDict(strips[..n]);
      StripsDictDistinct(strips[..n]);
      assert strips[n].fileName !in Keys(init) by {
        forall i | 0 <= i < n ensures Keys(init)[i] != strips[n].fileName {
          assert Keys(init)[i] == init[i].0 == strips[i].fileName;
        }
      }
      UpdateOne(init, strips[n].fileName, strips[n].Body());
      PutFresh(init, strips[n].fileName, strips[n].Body());
    }
  }

  lemma StripMapRoundTrip(v: Yaml, strips: seq<StripEntry>)
    requires IsStripMap(v) && StripsFromItems(v.items) == Success(strips)
    ensures strips != [] && PyEq(v, Map(StripsDict(strips)))
  {
    StripsDictDistinct(strips);
    var out := StripsDict(strips);
    forall i | 0 <= i < |v.items|
      ensures Get(out, v.items[i].0).Some? && PyEq(v.items[i].1, Get(out, v.items[i].0).value)
    {
      GetAt(out, i);
      StripBlockRoundTrip(v.items[i].0, v.items[i].1, strips[i]);
    }
    PyEqByGet(v.items, out);
  }

  /** Two distinct keys present in a mapping of two entries are all its keys. */
  lemma OneOfTwo(items: seq<(string, Yaml)>, a: string, b: string, i: int)
    requires |items| == 2 && a != b && a in Keys(items) && b in Keys(items) && 0 <= i < 2
    ensures items[i].0 == a || items[i].0 == b
  {
    assert Keys(items)[0] == items[0].0 && Keys(items)[1] == items[1].0;
  }

  /** Three distinct keys present in a mapping of three entries are all its keys. */
  lemma OneOfThree(items: seq<(string, Yaml)>, a: string, b: string, c: string, i: int)
    requires |items| == 3 && a != b && b != c && a != c
    requires a in Keys(items) && b in Keys(items) && c in Keys(items) && 0 <= i < 3
    ensures items[i].0 == a || items[i].0 == b || items[i].0 == c
  {
    ThreeCover(Keys(items), a, b, c, i);
  }

  /** Three distinct values found in a sequence of three fill it. */
  lemma ThreeCover<T>(ks: seq<T>, a: T, b: T, c: T, i: int)
    requires |ks| == 3 && a != b && b != c && a != c
    requires a in ks && b in ks && c in ks && 0 <= i < 3
    ensures ks[i] == a || ks[i] == b || ks[i] == c
  {
    var pa :| 0 <= pa < 3 && ks[pa] == a;
    var pb :| 0 <= pb < 3 && ks[pb] == b;
    var pc :| 0 <= pc < 3 && ks[pc] == c;
    assert i == pa || i == pb || i == pc;
  }

  lemma EntryRoundTrip(name: string, v: Yaml, dirs: Dirs, listing: Listing, e: EntryState)
    requires IsEntryBody(v) && EntryFromDict(name, v, dirs, listing) == Success(e)
    ensures PyEq(v, Map(EntryBody(e)))
  {
    var body := EntryBody(e);
    EntryFromDictReads(name, v, dirs, listing, e);
    EntryBodyShape(e);
    var hasStrip := "strip" in Keys(v.items);
    if hasStrip {
      StripMapRoundTrip(Get(v.items, "strip").value, e.strips);
    }
    forall i | 0 <= i < |v.items|
      ensures Get(body, v.items[i].0).Some? && PyEq(v.items[i].1, Get(body, v.items[i].0).value)
    {
      GetAt(v.items, i);
      var k := v.items[i].0;
      if hasStrip {
        OneOfThree(v.items, "location", "entries", "strip", i);
      } else {
        OneOfTwo(v.items, "location", "entries", i);
      }
      if k == "entries" {
        PyEqReflexive(e.entries);
      }
    }
    PyEqByGet(v.items, body);
  }

  /** Each entry read keeps the name of its key. */
  lemma EntryNames(kvs: seq<(string, Yaml)>, dirs: Dirs, listing: Listing, es: seq<EntryState>)
    requires EntriesFromItems(kvs, dirs, listing) == Success(es)
    ensures |es| == |kvs| && forall i :: 0 <= i < |es| ==> es[i].name == kvs[i].0
  {
    forall i | 0 <= i < |es| ensures es[i].name == kvs[i].0 {
      EntriesFromItemsEach(kvs, dirs, listing, i);
      EntryFromDictReads(kvs[i].0, kvs[i].1, dirs, listing, es[i]);
    }
  }

  /** Each section read keeps the name of its key. */
  lemma SectionNames(kvs: seq<(string, Yaml)>, dirs: Dirs, listing: Listing, ss: seq<SectionState>)
    requires SectionsFromItems(kvs, dirs, listing) == Success(ss)
    ensures |ss| == |kvs| && forall i :: 0 <= i < |ss| ==> ss[i].name == kvs[i].0
  {
    forall i | 0 <= i < |ss| ensures ss[i].name == kvs[i].0 {
      assert SectionFromDict(kvs[i].0, kvs[i].1, dirs, listing) == Success(ss[i]);
    }
  }

  /** With distinct names every entry adds its own key, in order. */
  lemma {:induction false} EntriesDictDistinct(es: seq<EntryState>)
    requires forall i, j :: 0 <= i < j < |es| ==> es[i].name != es[j].name
    ensures |EntriesDict(es)| == |es|
    ensures forall i :: 0 <= i < |es| ==> EntriesDict(es)[i] == (es[i].name, Map(EntryBody(es[i])))
    decreases |es|
  {
    if es != [] {
      var n := |es| - 1;
      var init := EntriesDict(es[..n]);
      EntriesDictDistinct(es[..n]);
      assert es[n].name !in Keys(init) by {
        forall i | 0 <= i < n ensures Keys(init)[i] != es[n].name {
          assert Keys(init)[i] == init[i].0 == es[i].name;
        }
      }
      var body := Map(EntryBody(es[n]));
      assert EntriesDict(es) == Update(init, [(es[n].name, body)]);
      UpdateOne(init, es[n].name, body);
      PutFresh(init, es[n].name, body);
    }
  }

  lemma SectionRoundTrip(name: string, v: Yaml, dirs: Dirs, listing: Listing, s: SectionState)
    requires IsSectionBody(v) && SectionFromDict(name, v, dirs, listing) == Success(s)
    ensures s.name == name && PyEq(v, Map(EntriesDict(s.entries)))
  {
    var es := s.entries;
    assert EntriesFromItems(v.items, dirs, listing) == Success(es);
    EntryNames(v.items, dirs, listing, es);
    EntriesDictDistinct(es);
    var out := EntriesDict(es);
    forall i | 0 <= i < |v.items|
      ensures Get(out, v.items[i].0).Some? && PyEq(v.items[i].1, Get(out, v.items[i].0).value)
    {
      GetAt(out, i);
      EntriesFromItemsEach(v.items, dirs, listing, i);
      EntryRoundTrip(v.items[i].0, v.items[i].1, dirs, listing, es[i]);
    }
    PyEqByGet(v.items, out);
  }

  /** Among sections with distinct names, the one found is the one at the
      index of that name. */
  lemma FindSectionAt(ss: seq<SectionState>, i: int)
    requires 0 <= i < |ss|
    requires forall a, b :: 0 <= a < b < |ss| ==> ss[a].name != ss[b].name
    ensures FindSection(ss, ss[i].name) == Some(ss[i])
  {
    var r := FindSection(ss, ss[i].name);
    var j :| 0 <= j < |ss| && ss[j] == r.value;
  }

  /** With both sections present, `{**save, **export}` holds the two section
      bodies under their names. */
  lemma ConfigToDictShape(ss: seq<SectionState>, save: SectionState, exported: SectionState)
    requires FindSection(ss, "save") == Some(save) && FindSection(ss, "export") == Some(exported)
    ensures ConfigToDict(ss) == Success(Map([("save", Map(EntriesDict(save.entries))),
                                             ("export", Map(EntriesDict(exported.entries)))]))
  {
    var a := [("save", Map(EntriesDict(save.entries)))];
    var b := Map(EntriesDict(exported.entries));
    assert SectionToDict(save).items == a;
    assert SectionToDict(exported).items == [("export", b)];
    assert ConfigToDict(ss) == Success(Map(Update(a, [("export", b)])));
    UpdateOne(a, "export", b);
    assert Keys(a)[0] == "save";
    PutFresh(a, "export", b);
    assert a + [("export", b)] == [("save", Map(EntriesDict(save.entries))), ("export", b)];
  }

  /** The sections read from a manifest, written back under their names,
      equal the document. */
  lemma ManifestSections(d: Yaml, dirs: Dirs, listing: Listing, ss: seq<SectionState>)
    returns (save: SectionState, exported: SectionState)
    requires IsManifest(d) && SectionsFromItems(d.items, dirs, listing) == Success(ss)
    ensures FindSection(ss, "save") == Some(save) && FindSection(ss, "export") == Some(exported)
    ensures PyEq(d, Map([("save", Map(EntriesDict(save.entries))), ("export", Map(EntriesDict(exported.entries)))]))
  {
    SectionNames(d.items, dirs, listing, ss);
    var p :| 0 <= p < |d.items| && Keys(d.items)[p] == "save";
    var q :| 0 <= q < |d.items| && Keys(d.items)[q] == "export";
    FindSectionAt(ss, p);
    FindSectionAt(ss, q);
    save, exported := ss[p], ss[q];
    assert SectionFromDict("save", d.items[p].1, dirs, listing) == Success(save);
    assert SectionFromDict("export", d.items[q].1, dirs, listing) == Success(exported);
    SectionRoundTrip("save", d.items[p].1, dirs, listing, save);
    SectionRoundTrip("export", d.items[q].1, dirs, listing, exported);
    TwoSections(d.items, p, q, Map(EntriesDict(save.entries)), Map(EntriesDict(exported.entries)));
  }

  /** A mapping of two entries equals the one holding values equal to them
      under the keys `save` and `export`. */
  lemma TwoSections(items: seq<(string, Yaml)>, p: int, q: int, s: Yaml, e: Yaml)
    requires |items| == 2 && 0 <= p < 2 && 0 <= q < 2
    requires items[p].0 == "save" && items[q].0 == "export"
    requires PyEq(items[p].1, s) && PyEq(items[q].1, e)
    ensures PyEq(Map(items), Map([("save", s), ("export", e)]))
  {
    var out := [("save", s), ("export", e)];
    assert p != q;
    forall i | 0 <= i < |items|
      ensures Get(out, items[i].0).Some? && PyEq(items[i].1, Get(out, items[i].0).value)
    {
      if i == p { GetAt(out, 0); } else { GetAt(out, 1); }
    }
    PyEqByGet(items, out);
  }

  /** The round trip of the source's own check: loading a manifest in the
      shape `to_dict` writes and writing it back gives an equal document,
      whatever the locations resolve to. */
  lemma ConfigRoundTrip(d: Yaml, dirs: Dirs, listing: Listing)
    requires IsManifest(d) && LoadConfig(d, dirs, listing).Success?
    ensures ConfigToDict(LoadConfig(d, dirs, listing).value).Success?
    ensures PyEq(d, ConfigToDict(LoadConfig(d, dirs, listing).value).value)
  {
    NormalizeKeepsNullFree(d);
    var ss := LoadConfig(d, dirs, listing).value;
    assert SectionsFromItems(d.items, dirs, listing) == Success(ss);
    var save, exported := ManifestSections(d, dirs, listing, ss);
    ConfigToDictShape(ss, save, exported);
  }
}
