/** The classes of konsave/config.py: a configuration entry whose location is
    rewritten in place by the keyword and function passes, a section of
    entries, and the configuration loaded from a parsed manifest. Each is
    proved against the value-level definitions of module `Manifest`. */
module Config {
  import opened Wrappers
  import opened Text
  import opened Yaml
  import opened Parse
  import opened Location
  import opened Manifest

  // ---------------------------------------------------------------------------
  // setattr

  /** The attributes a loop of `setattr(self, key, value)` leaves, one per key;
      a later pair with the same key replaces an earlier one. */
  function SetAttributes<K, T>(pairs: seq<(K, T)>): map<K, T>
    decreases |pairs|
  {
    if pairs == [] then map[]
    else
      var n := |pairs| - 1;
      SetAttributes(pairs[..n])[pairs[n].0 := pairs[n].1]
  }

  /** Every key of the pairs is an attribute, and every attribute holds the
      value of a pair with its key. */
  lemma {:induction false} SetAttributesKeys<K, T>(pairs: seq<(K, T)>)
    ensures forall i :: 0 <= i < |pairs| ==> pairs[i].0 in SetAttributes(pairs)
    ensures forall k :: k in SetAttributes(pairs) ==>
              exists i :: 0 <= i < |pairs| && pairs[i] == (k, SetAttributes(pairs)[k])
    decreases |pairs|
  {
    if pairs != [] {
      var n := |pairs| - 1;
      var init := pairs[..n];
      var m := SetAttributes(pairs);
      assert m == SetAttributes(init)[pairs[n].0 := pairs[n].1];
      SetAttributesKeys(init);
      forall i | 0 <= i < |pairs| ensures pairs[i].0 in m {
        if i < n {
          assert init[i] == pairs[i];
        }
      }
      forall k | k in m ensures exists i :: 0 <= i < |pairs| && pairs[i] == (k, m[k]) {
        if k != pairs[n].0 {
          var i :| 0 <= i < n && init[i] == (k, SetAttributes(init)[k]);
          assert pairs[i] == (k, m[k]);
        } else {
          assert pairs[n] == (k, m[k]);
        }
      }
    }
  }

  /** The attribute under a key is the value of the last pair with that key. */
  lemma {:induction false} LastAttributeWins<K, T>(pairs: seq<(K, T)>, i: int)
    requires 0 <= i < |pairs|
    requires forall j :: i < j < |pairs| ==> pairs[j].0 != pairs[i].0
    ensures pairs[i].0 in SetAttributes(pairs) && SetAttributes(pairs)[pairs[i].0] == pairs[i].1
    decreases |pairs|
  {
    var n := |pairs| - 1;
    var init := pairs[..n];
    assert SetAttributes(pairs) == SetAttributes(init)[pairs[n].0 := pairs[n].1];
    if i < n {
      assert init[i] == pairs[i];
      assert forall j :: i < j < |init| ==> init[j].0 != init[i].0 by {
        assert forall j :: i < j < |init| ==> init[j] == pairs[j];
      }
      LastAttributeWins(init, i);
      assert pairs[n].0 != pairs[i].0;
    }
  }

  function StripPairs(strips: seq<StripEntry>): seq<(string, StripEntry)> {
    seq(|strips|, i requires 0 <= i < |strips| => (strips[i].fileName, strips[i]))
  }

  // ---------------------------------------------------------------------------
  // ConfEntry

  /** `ConfEntry`: the location is the one field the two passes rewrite. */
  class ConfEntry {
    const name: string
    var location: string
    /** `localtion_original`: the location as written, for `to_dict`. */
    const locationOriginal: string
    const entries: Yaml
    const strips: seq<StripEntry>
    /** The strip entries `__post_init__` sets as attributes by file name. */
    const attributes: map<string, StripEntry>

    function State(): EntryState
      reads this
    {
      EntryState(name, location, locationOriginal, entries, strips)
    }

    /** The dataclass constructor and `__post_init__` up to the two passes. */
    constructor(name: string, location: string, entries: Yaml, strips: seq<StripEntry>)
      ensures State() == EntryState(name, location, location, entries, strips)
      ensures attributes == SetAttributes(StripPairs(strips))
    {
      var pairs := StripPairs(strips);
      var m := map[];
      for i := 0 to |strips|
        invariant m == SetAttributes(pairs[..i])
      {
        assert pairs[..i + 1][..i] == pairs[..i];
        m := m[strips[i].fileName := strips[i]];
      }
      assert pairs[..|strips|] == pairs;
      this.name := name;
      this.location := location;
      this.locationOriginal := location;
      this.entries := entries;
      this.strips := strips;
      this.attributes := m;
    }

    /** `parse_keywords`: each marker of the keyword table that occurs in the
        location is replaced, everywhere, by the keyword's directory. */
    method ParseKeywords(dirs: Dirs)
      modifies this
      ensures location == ExpandKeywords(old(location), KeywordTable(dirs))
    {
      var table := KeywordTable(dirs);
      for i := 0 to |table|
        invariant ExpandKeywords(location, table[i..]) == ExpandKeywords(old(location), table)
      {
        assert table[i..][1..] == table[i + 1..];
        var word := Marker(table[i].0);
        if Contains(location, word) {
          location := ReplaceAll(location, word, table[i].1);
        }
      }
    }

    /** `parse_functions`: every token `findall` returns in the location is
        read for its name, and a known function rewrites the location. A
        token whose name the grouped pattern cannot read ends the pass with
        AttributeError, as does a resolver that fails. */
    method ParseFunctions(listing: Listing) returns (err: Option<Error>)
      modifies this
      ensures err.None? ==> ResolveFunctions(old(location), listing) == Success(location)
      ensures err.Some? ==> ResolveFunctions(old(location), listing) == Failure(err.value)
    {
      var matches := FindAll(location);
      for i := 0 to |matches|
        invariant ApplyTokens(location, matches[i..], listing) == ResolveFunctions(old(location), listing)
      {
        assert matches[i..][1..] == matches[i + 1..];
        var name := TokenName(matches[i]);
        if name.None? {
          return Some(AttributeError);
        }
        var f := LookupFunction(name.value);
        if f.Some? {
          var next := Resolve(f.value, location, listing);
          if next.Failure? {
            return Some(next.error);
          }
          location := next.value;
        }
      }
      return None;
    }

    /** `ConfEntry.to_dict`. */
    method ToDict() returns (d: Yaml)
      ensures d == EntryToDict(State())
    {
      var stripDict: seq<(string, Yaml)> := [];
      for i := 0 to |strips|
        invariant stripDict == StripsDict(strips[..i])
      {
        assert strips[..i + 1][..i] == strips[..i];
        stripDict := Update(stripDict, strips[i].ToDict().items);
      }
      assert strips[..|strips|] == strips;
      var body := [("location", Str(locationOriginal)), ("entries", entries)];
      if stripDict != [] {
        body := body + [("strip", Map(stripDict))];
      }
      d := Map([(name, Map(body))]);
    }

    /** `ConfEntry.from_dict` and `__post_init__`. A location that is not a
        string fails in the first pass that touches it, with the error
        `LocationError` names. */
    static method FromDict(name: string, data: Yaml, dirs: Dirs, listing: Listing) returns (r: Result<ConfEntry, Error>)
      ensures r.Success? <==> EntryFromDict(name, data, dirs, listing).Success?
      ensures r.Success? ==> fresh(r.value) && r.value.State() == EntryFromDict(name, data, dirs, listing).value
      ensures r.Success? ==> r.value.attributes == SetAttributes(StripPairs(r.value.strips))
      ensures r.Failure? ==> r.error == EntryFromDict(name, data, dirs, listing).error
    {
      if !data.Map? {
        return Failure(TypeError);
      }
      var subs: seq<StripEntry> := [];
      if "strip" in Keys(data.items) {
        var read := StripsFromDict(Get(data.items, "strip").value);
        if read.Failure? {
          return Failure(read.error);
        }
        subs := read.value;
      }
      var location := Get(data.items, "location");
      if location.None? {
        return Failure(KeyError("location"));
      }
      var entries := Get(data.items, "entries");
      if entries.None? {
        return Failure(KeyError("entries"));
      }
      if !location.value.Str? {
        return Failure(LocationError(location.value));
      }
      var e := new ConfEntry(name, location.value.s, entries.value, subs);
      e.ParseKeywords(dirs);
      var err := e.ParseFunctions(listing);
      if err.Some? {
        return Failure(err.value);
      }
      return Success(e);
    }
  }

  /** The states of a sequence of entries. */
  function StatesOf(es: seq<ConfEntry>): (r: seq<EntryState>)
    reads set e | e in es
    ensures |r| == |es|
    ensures forall i :: 0 <= i < |es| ==> r[i] == es[i].State()
    decreases |es|
  {
    if es == [] then [] else StatesOf(es[..|es| - 1]) + [es[|es| - 1].State()]
  }

  lemma StatesOfSnoc(es: seq<ConfEntry>, e: ConfEntry)
    ensures StatesOf(es + [e]) == StatesOf(es) + [e.State()]
  {
    assert (es + [e])[..|es|] == es;
  }

  /** The list comprehension of `Section.from_dict`: one entry per key, in
      order; the first failure is the one raised. */
  method ReadEntries(items: seq<(string, Yaml)>, dirs: Dirs, listing: Listing) returns (r: Result<seq<ConfEntry>, Error>)
    ensures r.Success? <==> EntriesFromItems(items, dirs, listing).Success?
    ensures r.Success? ==> EntriesFromItems(items, dirs, listing).value == StatesOf(r.value)
    ensures r.Failure? ==> r.error == EntriesFromItems(items, dirs, listing).error
  {
    var subs: seq<ConfEntry> := [];
    assert items[0..] == items;
    PrefixedNothing(EntriesFromItems(items, dirs, listing));
    for i := 0 to |items|
      invariant EntriesFromItems(items, dirs, listing) == Prefixed(StatesOf(subs), EntriesFromItems(items[i..], dirs, listing))
    {
      ghost var before := StatesOf(subs);
      var e := ConfEntry.FromDict(items[i].0, items[i].1, dirs, listing);
      if e.Failure? {
        EntriesReadFails(items, i, dirs, listing, before);
        return Failure(e.error);
      }
      assert StatesOf(subs) == before;
      EntriesReadOneMore(items, i, dirs, listing, before, e.value.State());
      subs := subs + [e.value];
      StatesOfSnoc(subs[..|subs| - 1], e.value);
    }
    assert items[|items|..] == [];
    assert StatesOf(subs) + [] == StatesOf(subs);
    return Success(subs);
  }

  function EntryPairs(es: seq<ConfEntry>): seq<(string, ConfEntry)> {
    seq(|es|, i requires 0 <= i < |es| => (es[i].name, es[i]))
  }

  // ---------------------------------------------------------------------------
  // Section

  /** `Section`: a name and its entries, each also an attribute by name. */
  class Section {
    const name: string
    const entries: seq<ConfEntry>
    const attributes: map<string, ConfEntry>

    /** The dataclass constructor and `__post_init__`. */
    constructor(name: string, entries: seq<ConfEntry>)
      ensures this.name == name && this.entries == entries
      ensures attributes == SetAttributes(EntryPairs(entries))
    {
      var pairs := EntryPairs(entries);
      var m := map[];
      for i := 0 to |entries|
        invariant m == SetAttributes(pairs[..i])
      {
        assert pairs[..i + 1][..i] == pairs[..i];
        m := m[entries[i].name := entries[i]];
      }
      assert pairs[..|entries|] == pairs;
      this.name := name;
      this.entries := entries;
      this.attributes := m;
    }

    /** `Section.from_dict`: `data.keys()` needs a mapping. */
    static method FromDict(name: string, data: Yaml, dirs: Dirs, listing: Listing) returns (r: Result<Section, Error>)
      ensures r.Success? <==> SectionFromDict(name, data, dirs, listing).Success?
      ensures r.Success? ==> fresh(r.value) && r.value.name == name
      ensures r.Success? ==> SectionFromDict(name, data, dirs, listing).value.entries == StatesOf(r.value.entries)
      ensures r.Failure? ==> r.error == SectionFromDict(name, data, dirs, listing).error
    {
      if !data.Map? {
        return Failure(AttributeError);
      }
      var read := ReadEntries(data.items, dirs, listing);
      if read.Failure? {
        return Failure(read.error);
      }
      ghost var states := StatesOf(read.value);
      var s := new Section(name, read.value);
      assert StatesOf(s.entries) == states;
      return Success(s);
    }

    /** `Section.to_dict`. */
    method ToDict() returns (d: Yaml)
      ensures d == SectionToDict(SectionState(name, StatesOf(entries)))
    {
      ghost var states := StatesOf(entries);
      var acc: seq<(string, Yaml)> := [];
      for i := 0 to |entries|
        invariant acc == EntriesDict(states[..i])
      {
        var entryDict := entries[i].ToDict();
        assert states[..i + 1] == states[..i] + [entries[i].State()];
        EntriesDictSnoc(states[..i], entries[i].State());
        acc := Update(acc, entryDict.items);
      }
      assert states[..|entries|] == states;
      d := Map([(name, Map(acc))]);
    }
  }

  /** The objects whose state the sections' states depend on. */
  function AllEntries(secs: seq<Section>): seq<ConfEntry>
    decreases |secs|
  {
    if secs == [] then [] else AllEntries(secs[..|secs| - 1]) + secs[|secs| - 1].entries
  }

  /** The states of a sequence of sections. */
  function SectionStatesOf(secs: seq<Section>): (r: seq<SectionState>)
    reads set e | e in AllEntries(secs)
    ensures |r| == |secs|
    ensures forall i :: 0 <= i < |secs| ==> r[i] == SectionState(secs[i].name, StatesOf(secs[i].entries))
    decreases |secs|
  {
    if secs == [] then []
    else
      var n := |secs| - 1;
      SectionStatesOf(secs[..n]) + [SectionState(secs[n].name, StatesOf(secs[n].entries))]
  }

  /** `self.sections.get(name)`. */
  function SectionNamed(secs: seq<Section>, name: string): Option<Section> {
    if secs == [] then None
    else if secs[0].name == name then Some(secs[0])
    else SectionNamed(secs[1..], name)
  }

  /** Finding a section object by name finds the section whose state is found
      by that name. */
  lemma {:induction false} SectionNamedState(secs: seq<Section>, ss: seq<SectionState>, name: string)
    requires |secs| == |ss| && forall i :: 0 <= i < |secs| ==> ss[i].name == secs[i].name
    ensures SectionNamed(secs, name).None? <==> FindSection(ss, name).None?
    ensures SectionNamed(secs, name).Some? ==>
              exists i :: 0 <= i < |secs| && SectionNamed(secs, name) == Some(secs[i]) && FindSection(ss, name) == Some(ss[i])
    decreases |secs|
  {
    if secs != [] && secs[0].name != name {
      SectionNamedState(secs[1..], ss[1..], name);
      if SectionNamed(secs, name).Some? {
        var i :| 0 <= i < |secs| - 1 && SectionNamed(secs[1..], name) == Some(secs[1..][i])
                 && FindSection(ss[1..], name) == Some(ss[1..][i]);
        assert SectionNamed(secs, name) == Some(secs[i + 1]) && FindSection(ss, name) == Some(ss[i + 1]);
      }
    } else if secs != [] {
      assert SectionNamed(secs, name) == Some(secs[0]) && FindSection(ss, name) == Some(ss[0]);
    }
  }

  /** The section found by name has the state found by that name. */
  lemma FoundState(secs: seq<Section>, ss: seq<SectionState>, name: string)
    requires ss == SectionStatesOf(secs) && SectionNamed(secs, name).Some?
    ensures FindSection(ss, name)
            == Some(SectionState(SectionNamed(secs, name).value.name, StatesOf(SectionNamed(secs, name).value.entries)))
  {
    SectionNamedState(secs, ss, name);
  }

  /** With both sections present, writing back merges their dicts. */
  lemma BothFound(secs: seq<Section>, ss: seq<SectionState>, save: Section, exported: Section)
    requires ss == SectionStatesOf(secs)
    requires SectionNamed(secs, "save") == Some(save) && SectionNamed(secs, "export") == Some(exported)
    ensures ConfigToDict(ss)
            == Success(Map(Update(SectionToDict(SectionState(save.name, StatesOf(save.entries))).items,
                                  SectionToDict(SectionState(exported.name, StatesOf(exported.entries))).items)))
  {
    FoundState(secs, ss, "save");
    FoundState(secs, ss, "export");
  }

  // ---------------------------------------------------------------------------
  // Config

  /** `Config`: the sections in key order, and `save` and `export`. */
  class Config {
    const sections: seq<Section>
    const save: Option<Section> := SectionNamed(sections, "save")
    /** `export`. */
    const exported: Option<Section> := SectionNamed(sections, "export")

    function States(): seq<SectionState>
      reads set e | e in AllEntries(sections)
    {
      SectionStatesOf(sections)
    }

    constructor(sections: seq<Section>)
      ensures this.sections == sections
      ensures States() == old(SectionStatesOf(sections))
    {
      this.sections := sections;
    }

    /** The dict comprehension of `Config.__init__`: one section per key, in
        order; the first failure is the one raised. */
    static method LoadSections(items: seq<(string, Yaml)>, dirs: Dirs, listing: Listing) returns (r: Result<seq<Section>, Error>)
      ensures r.Success? <==> SectionsFromItems(items, dirs, listing).Success?
      ensures r.Success? ==> SectionStatesOf(r.value) == SectionsFromItems(items, dirs, listing).value
      ensures r.Failure? ==> r.error == SectionsFromItems(items, dirs, listing).error
    {
      var subs: seq<Section> := [];
      assert items[0..] == items;
      PrefixedNothing(SectionsFromItems(items, dirs, listing));
      for i := 0 to |items|
        invariant SectionsFromItems(items, dirs, listing) == Prefixed(SectionStatesOf(subs), SectionsFromItems(items[i..], dirs, listing))
      {
        SectionsFromItemsStep(items, i, dirs, listing);
        ghost var before := SectionStatesOf(subs);
        var s := Section.FromDict(items[i].0, items[i].1, dirs, listing);
        if s.Failure? {
          return Failure(s.error);
        }
        assert SectionStatesOf(subs) == before;
        var state := SectionState(s.value.name, StatesOf(s.value.entries));
        PrefixedTwice(before, [state], SectionsFromItems(items[i + 1..], dirs, listing));
        assert (subs + [s.value])[..|subs|] == subs;
        subs := subs + [s.value];
        assert SectionStatesOf(subs) == before + [state];
      }
      assert items[|items|..] == [];
      assert SectionStatesOf(subs) + [] == SectionStatesOf(subs);
      return Success(subs);
    }

    /** `Config.__init__` after the document is read and parsed: nulls become
        empty lists, then one section per key. */
    static method Load(data: Yaml, dirs: Dirs, listing: Listing) returns (r: Result<Config, Error>)
      ensures r.Success? <==> LoadConfig(data, dirs, listing).Success?
      ensures r.Success? ==> fresh(r.value) && r.value.States() == LoadConfig(data, dirs, listing).value
      ensures r.Failure? ==> r.error == LoadConfig(data, dirs, listing).error
    {
      var d := Normalize(data);
      if !d.Map? {
        return Failure(AttributeError);
      }
      var subs := LoadSections(d.items, dirs, listing);
      if subs.Failure? {
        return Failure(subs.error);
      }
      var c := new Config(subs.value);
      return Success(c);
    }

    /** `Config.to_dict`: `{**save.to_dict(), **export.to_dict()}`, where a
        missing section is `None` and has no `to_dict`. */
    method ToDict() returns (r: Result<Yaml, Error>)
      ensures r == ConfigToDict(States())
    {
      if save.None? || exported.None? {
        SectionNamedState(sections, States(), "save");
        SectionNamedState(sections, States(), "export");
        return Failure(AttributeError);
      }
      ghost var sa := SectionState(save.value.name, StatesOf(save.value.entries));
      var a := save.value.ToDict();
      var b := exported.value.ToDict();
      assert StatesOf(save.value.entries) == sa.entries;
      BothFound(sections, States(), save.value, exported.value);
      return Success(Map(Update(a.items, b.items)));
    }
  }

  /** The check at the end of konsave/config.py: load the manifest, write it
      back, and compare with the document as parsed. */
  method CheckRoundTrip(data: Yaml, dirs: Dirs, listing: Listing) returns (r: Result<bool, Error>)
    ensures LoadConfig(data, dirs, listing).Failure? ==> r == Failure(LoadConfig(data, dirs, listing).error)
    ensures IsManifest(data) && LoadConfig(data, dirs, listing).Success? ==> r == Success(true)
  {
    var c := Config.Load(data, dirs, listing);
    if c.Failure? {
      return Failure(c.error);
    }
    ghost var states := c.value.States();
    var out := c.value.ToDict();
    assert c.value.States() == states;
    if out.Failure? {
      return Failure(out.error);
    }
    if IsManifest(data) {
      ConfigRoundTrip(data, dirs, listing);
    }
    var equal := PyEq(data, out.value);
    return Success(equal);
  }
}
