/** The `config edit` and `config init` logic of served.go: merging flag
    values into a loaded configuration, and defaulting a fresh one. Reading
    and writing files are abstracted away: the loaded configuration (or the
    read error) and "the output file exists" are inputs, and a successful
    command yields the text that would be written. */
module Served {
  import opened Wrappers
  import opened ConfigFile

  /** The default value of every scalar edit flag, meaning "not supplied". */
  const Sentinel: string := "!!!@@@"

  datatype Platform = Osx | Posix

  datatype Error =
    | ReadFailed(reason: string)              // loading the file to edit failed
    | EmptyName                               // --name given as ""
    | InvalidOption(platform: Platform, item: string)  // option entry without ':'
    | FileExists(path: string)                // init target already present

  /** The text the command prints before exiting with status 1. */
  function Message(e: Error): (msg: string)
    ensures e.InvalidOption? ==> EndsWith(msg, ": " + e.item)
    ensures e.FileExists? ==> EndsWith(msg, ": " + e.path)
  {
    match e
    case ReadFailed(reason) => reason
    case EmptyName => "name can not be empty"
    case InvalidOption(Osx, item) => "invalid oxs option: " + item
    case InvalidOption(Posix, item) => "invalid posix option: " + item
    case FileExists(path) => "config file exitsed: " + path
  }

  /** `updateValue`: the flag value replaces the field unless it is the default. */
  function UpdateValue(origin: string, newer: string, defaultValue: string): (r: string)
    ensures newer != defaultValue ==> r == newer
    ensures newer == defaultValue ==> r == origin
  {
    if newer != defaultValue then newer else origin
  }

  /** `isDefaultSlice`: only a non-nil empty slice means "not supplied". */
  function IsDefaultSlice(s: Slice): (b: bool)
    ensures b <==> s == Made([])
  {
    s.Made? && |s.elems| == 0
  }

  /** Position of the first ':' in `s`, if any. */
  function ColonIndex(s: string): (r: Option<nat>)
    ensures r.None? <==> ':' !in s
    ensures r.Some? ==> r.value < |s| && s[r.value] == ':' && ':' !in s[..r.value]
  {
    if s == [] then None
    else if s[0] == ':' then Some(0)
    else
      match ColonIndex(s[1..])
      case None => None
      case Some(i) =>
        assert s[..i + 1] == [s[0]] + s[1..][..i];
        Some(i + 1)
  }

  /** `strings.SplitN(item, ":", 2)` followed by the two-part check: the key
      is the text before the first colon and the value all text after it. */
  function SplitOption(item: string): (r: Option<(string, string)>)
    ensures r.None? <==> ':' !in item
    ensures r.Some? ==> item == r.value.0 + ":" + r.value.1 && ':' !in r.value.0
  {
    match ColonIndex(item)
    case None => None
    case Some(i) =>
      assert item == item[..i] + ":" + item[i + 1..];
      Some((item[..i], item[i + 1..]))
  }

  /** Joining a colon-free key and any value with ':' splits back into them. */
  lemma SplitOptionJoin(k: string, v: string)
    requires ':' !in k
    ensures SplitOption(k + ":" + v) == Some((k, v))
  {
    var item := k + ":" + v;
    assert item[|k|] == ':';
    assert forall j :: 0 <= j < |k| ==> item[j] == k[j];
    var i := ColonIndex(item).value;
    assert forall j :: 0 <= j < i ==> item[..i][j] == item[j];
    assert i == |k|;
    assert item[..i] == k;
    assert item[i + 1..] == v;
  }

  function KeyOf(item: string): string
    requires ':' in item
  {
    SplitOption(item).value.0
  }

  function ValueOf(item: string): string
    requires ':' in item
  {
    SplitOption(item).value.1
  }

  predicate AllHaveColon(items: seq<string>) {
    forall i :: 0 <= i < |items| ==> ':' in items[i]
  }

  /** `items[i]` is the first entry without a colon. */
  predicate FirstWithoutColon(items: seq<string>, i: int) {
    0 <= i < |items| && ':' !in items[i] && forall j :: 0 <= j < i ==> ':' in items[j]
  }

  /** `m` holds exactly the keys of the entries. */
  ghost predicate KeysOfEntries(items: seq<string>, m: map<string, string>)
    requires AllHaveColon(items)
  {
    forall k :: k in m <==> exists i :: 0 <= i < |items| && KeyOf(items[i]) == k
  }

  /** No entry after `items[i]` has the same key. */
  predicate LastWithKey(items: seq<string>, i: int)
    requires AllHaveColon(items)
    requires 0 <= i < |items|
  {
    forall j :: i < j < |items| ==> KeyOf(items[j]) != KeyOf(items[i])
  }

  /** Each key is bound to the value of the LAST entry with that key. */
  ghost predicate LastEntryWins(items: seq<string>, m: map<string, string>)
    requires AllHaveColon(items)
  {
    forall i :: 0 <= i < |items| && LastWithKey(items, i)
      ==> KeyOf(items[i]) in m && m[KeyOf(items[i])] == ValueOf(items[i])
  }

  /** `m` is what the option loop builds from `items`. */
  ghost predicate Parsed(items: seq<string>, m: map<string, string>) {
    AllHaveColon(items) && KeysOfEntries(items, m) && LastEntryWins(items, m)
  }

  lemma ParsedExtend(items: seq<string>, m: map<string, string>, item: string)
    requires Parsed(items, m)
    requires ':' in item
    ensures Parsed(items + [item], m[KeyOf(item) := ValueOf(item)])
  {
    ExtendKeys(items, m, item);
    ExtendValues(items, m, item);
  }

  lemma ExtendKeys(items: seq<string>, m: map<string, string>, item: string)
    requires AllHaveColon(items) && KeysOfEntries(items, m)
    requires ':' in item
    ensures AllHaveColon(items + [item])
    ensures KeysOfEntries(items + [item], m[KeyOf(item) := ValueOf(item)])
  {
    var items' := items + [item];
    var k := KeyOf(item);
    var m' := m[k := ValueOf(item)];
    assert forall i :: 0 <= i < |items| ==> items'[i] == items[i];
    assert items'[|items|] == item;
    forall key | key in m'
      ensures exists i :: 0 <= i < |items'| && KeyOf(items'[i]) == key
    {
      if key == k {
        assert KeyOf(items'[|items|]) == key;
      } else {
        var i :| 0 <= i < |items| && KeyOf(items[i]) == key;
        assert KeyOf(items'[i]) == key;
      }
    }
  }

  lemma ExtendValues(items: seq<string>, m: map<string, string>, item: string)
    requires AllHaveColon(items) && LastEntryWins(items, m)
    requires ':' in item
    ensures AllHaveColon(items + [item])
    ensures LastEntryWins(items + [item], m[KeyOf(item) := ValueOf(item)])
  {
    var items' := items + [item];
    var m' := m[KeyOf(item) := ValueOf(item)];
    assert forall i :: 0 <= i < |items| ==> items'[i] == items[i];
    forall i | 0 <= i < |items'| && LastWithKey(items', i)
      ensures KeyOf(items'[i]) in m' && m'[KeyOf(items'[i])] == ValueOf(items'[i])
    {
      if i < |items| {
        ExtendKeepsEarlier(items, m, item, i);
      } else {
        assert items'[i] == item;
      }
    }
  }

  /** An earlier entry whose key is not repeated later keeps its value. */
  lemma ExtendKeepsEarlier(items: seq<string>, m: map<string, string>, item: string, i: nat)
    requires AllHaveColon(items) && LastEntryWins(items, m)
    requires ':' in item
    requires i < |items|
    requires AllHaveColon(items + [item]) && LastWithKey(items + [item], i)
    ensures (items + [item])[i] == items[i]
    ensures KeyOf(items[i]) in m[KeyOf(item) := ValueOf(item)]
    ensures m[KeyOf(item) := ValueOf(item)][KeyOf(items[i])] == ValueOf(items[i])
  {
    var items' := items + [item];
    var key := KeyOf(items[i]);
    assert items'[i] == items[i];
    assert items'[|items|] == item;
    assert key != KeyOf(item);
    forall j | i < j < |items|
      ensures KeyOf(items[j]) != key
    {
      assert items'[j] == items[j];
    }
    assert LastWithKey(items, i);
  }

  /** The loop that fills a fresh option map from `key:value` entries, in
      order, stopping at the first entry without a colon. */
  function ParseOptions(p: Platform, items: seq<string>): (r: Result<map<string, string>, Error>)
    ensures r.Success? <==> AllHaveColon(items)
    ensures r.Success? ==> Parsed(items, r.value)
    ensures r.Failure? ==> exists i :: FirstWithoutColon(items, i) && r.error == InvalidOption(p, items[i])
    decreases |items|
  {
    if items == [] then Success(map[])
    else
      var init := items[..|items| - 1];
      var last := items[|items| - 1];
      assert items == init + [last];
      assert forall i :: 0 <= i < |init| ==> items[i] == init[i];
      match ParseOptions(p, init)
      case Failure(e) =>
        assert exists i :: FirstWithoutColon(items, i) && e == InvalidOption(p, items[i]);
        Failure(e)
      case Success(m) =>
        match SplitOption(last)
        case None =>
          assert FirstWithoutColon(items, |items| - 1);
          Failure(InvalidOption(p, last))
        case Some((k, v)) =>
          ParsedExtend(init, m, last);
          Success(m[k := v])
  }

  /** A supplied option list replaces the platform's map; the default leaves it. */
  function ReplaceOptions(p: Platform, current: map<string, string>, items: Slice): (r: Result<map<string, string>, Error>)
    ensures r.Success? <==> OptionsValid(items)
    ensures IsDefaultSlice(items) ==> r == Success(current)
    ensures !IsDefaultSlice(items) ==> r == ParseOptions(p, items.Items())
    ensures r.Failure? ==>
      exists i :: FirstWithoutColon(items.Items(), i) && r.error == InvalidOption(p, items.Items()[i])
  {
    if IsDefaultSlice(items) then Success(current) else ParseOptions(p, items.Items())
  }

  /** An option flag the edit will accept: not supplied, or every entry has a colon. */
  predicate OptionsValid(items: Slice) {
    IsDefaultSlice(items) || AllHaveColon(items.Items())
  }

  /** `result` is the flag value if one was supplied, else the original. */
  predicate Merged(original: string, flag: string, result: string) {
    if flag == Sentinel then result == original else result == flag
  }

  /** The scalar and list part of the edit, for a name that is not "". */
  function MergeFields(origin: Config, c: Config): (r: Config)
    ensures r.name == (if c.name == Sentinel then origin.name else c.name)
    ensures && Merged(origin.displayName, c.displayName, r.displayName)
            && Merged(origin.description, c.description, r.description)
            && Merged(origin.userName, c.userName, r.userName)
            && Merged(origin.workingDirectory, c.workingDirectory, r.workingDirectory)
            && Merged(origin.chRoot, c.chRoot, r.chRoot)
    ensures r.arguments == (if c.arguments == Made([]) then origin.arguments else c.arguments)
    ensures r.dependencies == (if c.dependencies == Made([]) then origin.dependencies else c.dependencies)
    ensures r.executable == origin.executable
    ensures r.osxOpt == origin.osxOpt && r.posixOpt == origin.posixOpt
  {
    var named := if c.name != Sentinel then origin.(name := c.name) else origin;
    var scalars := named.(
      displayName := UpdateValue(named.displayName, c.displayName, Sentinel),
      description := UpdateValue(named.description, c.description, Sentinel),
      workingDirectory := UpdateValue(named.workingDirectory, c.workingDirectory, Sentinel),
      userName := UpdateValue(named.userName, c.userName, Sentinel),
      chRoot := UpdateValue(named.chRoot, c.chRoot, Sentinel));
    scalars.(
      arguments := if !IsDefaultSlice(c.arguments) then c.arguments else scalars.arguments,
      dependencies := if !IsDefaultSlice(c.dependencies) then c.dependencies else scalars.dependencies)
  }

  /** `startEditConfig` after the file has been read: `c` carries the scalar
      and list flags (its executable and option maps are not consulted), and
      `osxOpt`/`posixOpt` the raw `key:value` option flags. */
  function Edit(origin: Config, c: Config, osxOpt: Slice, posixOpt: Slice): (r: Result<Config, Error>)
    ensures c.name == "" ==> r == Failure(EmptyName)
    ensures r.Success? <==> c.name != "" && OptionsValid(osxOpt) && OptionsValid(posixOpt)
    ensures r.Failure? && c.name != "" && !OptionsValid(osxOpt) ==>
      exists i :: FirstWithoutColon(osxOpt.Items(), i) && r.error == InvalidOption(Osx, osxOpt.Items()[i])
    ensures r.Failure? && c.name != "" && OptionsValid(osxOpt) ==>
      exists i :: FirstWithoutColon(posixOpt.Items(), i) && r.error == InvalidOption(Posix, posixOpt.Items()[i])
    ensures r.Success? ==> r.value.name == (if c.name == Sentinel then origin.name else c.name)
    ensures r.Success? ==>
      && Merged(origin.displayName, c.displayName, r.value.displayName)
      && Merged(origin.description, c.description, r.value.description)
      && Merged(origin.userName, c.userName, r.value.userName)
      && Merged(origin.workingDirectory, c.workingDirectory, r.value.workingDirectory)
      && Merged(origin.chRoot, c.chRoot, r.value.chRoot)
    ensures r.Success? ==>
      && r.value.arguments == (if c.arguments == Made([]) then origin.arguments else c.arguments)
      && r.value.dependencies == (if c.dependencies == Made([]) then origin.dependencies else c.dependencies)
    ensures r.Success? ==> r.value.executable == origin.executable
    ensures r.Success? ==>
      Success(r.value.osxOpt) == (if osxOpt == Made([]) then Success(origin.osxOpt) else ParseOptions(Osx, osxOpt.Items()))
    ensures r.Success? ==>
      Success(r.value.posixOpt) == (if posixOpt == Made([]) then Success(origin.posixOpt) else ParseOptions(Posix, posixOpt.Items()))
  {
    if c.name != Sentinel && c.name == "" then Failure(EmptyName)
    else
      var merged := MergeFields(origin, c);
      var osx :- ReplaceOptions(Osx, merged.osxOpt, osxOpt);
      var posix :- ReplaceOptions(Posix, merged.posixOpt, posixOpt);
      Success(merged.(osxOpt := osx, posixOpt := posix))
  }

  /** `startEditConfig`: `parsed` is the outcome of reading the file to edit;
      a successful edit yields the text written back. */
  function StartEdit(parsed: Result<Config, Error>, c: Config, osxOpt: Slice, posixOpt: Slice): (r: Result<string, Error>)
    ensures parsed.Failure? ==> r == Failure(parsed.error)
    ensures parsed.Success? ==> r.Success? == Edit(parsed.value, c, osxOpt, posixOpt).Success?
    ensures parsed.Success? && r.Success? ==> r.value == Render(Edit(parsed.value, c, osxOpt, posixOpt).value)
    ensures parsed.Success? && r.Failure? ==> r.error == Edit(parsed.value, c, osxOpt, posixOpt).error
  {
    var origin :- parsed;
    var edited :- Edit(origin, c, osxOpt, posixOpt);
    Success(Render(edited))
  }

  /** The flag values of `config edit` when no flag is given. */
  function NoFlags(): Config {
    Config(Sentinel, Sentinel, Sentinel, Sentinel, Made([]), "", Made([]), Sentinel, Sentinel, map[], map[])
  }

  /** Every flag the edit reads is at its default; the executable and option
      maps of `c` may be anything, since the edit never reads them. */
  predicate NothingSupplied(c: Config) {
    && c.name == Sentinel && c.displayName == Sentinel && c.description == Sentinel
    && c.userName == Sentinel && c.workingDirectory == Sentinel && c.chRoot == Sentinel
    && c.arguments == Made([]) && c.dependencies == Made([])
  }

  /** An edit that supplies nothing returns the loaded configuration unchanged. */
  lemma EditNothingIsIdentity(origin: Config, c: Config)
    requires NothingSupplied(c)
    ensures Edit(origin, c, Made([]), Made([])) == Success(origin)
  {
  }

  /** Each scalar flag changes its own field and nothing else. */
  lemma EditScalarTouchesOnlyItsField(origin: Config, v: string)
    requires v != Sentinel
    ensures v != "" ==> Edit(origin, NoFlags().(name := v), Made([]), Made([])) == Success(origin.(name := v))
    ensures Edit(origin, NoFlags().(displayName := v), Made([]), Made([])) == Success(origin.(displayName := v))
    ensures Edit(origin, NoFlags().(description := v), Made([]), Made([])) == Success(origin.(description := v))
    ensures Edit(origin, NoFlags().(userName := v), Made([]), Made([])) == Success(origin.(userName := v))
    ensures Edit(origin, NoFlags().(workingDirectory := v), Made([]), Made([])) == Success(origin.(workingDirectory := v))
    ensures Edit(origin, NoFlags().(chRoot := v), Made([]), Made([])) == Success(origin.(chRoot := v))
  {
  }

  /** A supplied list replaces the field wholesale, a nil list included; no
      element of the old list survives. */
  lemma EditReplacesLists(origin: Config, s: Slice)
    requires s != Made([])
    ensures Edit(origin, NoFlags().(arguments := s), Made([]), Made([])) == Success(origin.(arguments := s))
    ensures Edit(origin, NoFlags().(dependencies := s), Made([]), Made([])) == Success(origin.(dependencies := s))
  {
  }

  /** A supplied option list replaces the platform's whole map by the parsed
      entries: keys of the old map that are not re-supplied are dropped. */
  lemma EditReplacesOptions(origin: Config, p: Platform, items: Slice, m: map<string, string>)
    requires items != Made([])
    requires ParseOptions(p, items.Items()) == Success(m)
    ensures p == Osx ==> Edit(origin, NoFlags(), items, Made([])) == Success(origin.(osxOpt := m))
    ensures p == Posix ==> Edit(origin, NoFlags(), Made([]), items) == Success(origin.(posixOpt := m))
    ensures AllHaveColon(items.Items())
    ensures forall k :: k in m <==> exists i :: 0 <= i < |items.Items()| && KeyOf(items.Items()[i]) == k
  {
    assert Parsed(items.Items(), m);
  }

  /** Applying the same edit twice gives the same result as applying it once. */
  lemma EditIdempotent(origin: Config, c: Config, osxOpt: Slice, posixOpt: Slice)
    requires Edit(origin, c, osxOpt, posixOpt).Success?
    ensures Edit(Edit(origin, c, osxOpt, posixOpt).value, c, osxOpt, posixOpt) == Edit(origin, c, osxOpt, posixOpt)
  {
  }

  /** Existing OS X options {a:1, b:2} edited with ["a:9"] become exactly {a:9}. */
  lemma EditOptionExample(origin: Config)
    requires origin.osxOpt == map["a" := "1", "b" := "2"]
    ensures Edit(origin, NoFlags(), Made(["a:9"]), Made([])) == Success(origin.(osxOpt := map["a" := "9"]))
  {
    SplitOptionJoin("a", "9");
    assert "a" + ":" + "9" == "a:9";
    assert ["a:9"][..0] == [];
    assert ParseOptions(Osx, ["a:9"]) == Success(map["a" := "9"]);
  }

  /** An option entry without a colon fails the edit and is named in the error. */
  lemma EditBadOptionExample(origin: Config, posixOpt: Slice)
    ensures Edit(origin, NoFlags(), Made(["foo"]), posixOpt) == Failure(InvalidOption(Osx, "foo"))
    ensures Message(InvalidOption(Osx, "foo")) == "invalid oxs option: foo"
  {
    assert ':' !in "foo";
    assert ["foo"][..0] == [];
  }

  /** A nil option list counts as supplied and empties the platform's map. */
  lemma EditNilOptionsClear(origin: Config)
    ensures Edit(origin, NoFlags(), Nil, Made([])) == Success(origin.(osxOpt := map[]))
  {
  }

  /** `startInitConfig`'s defaulting: display name and description copy the name. */
  function InitDefaults(c: Config): (d: Config)
    ensures d.name == c.name && d.displayName == c.name && d.description == c.name
    ensures d.(displayName := c.displayName, description := c.description) == c
  {
    c.(displayName := c.name, description := c.name)
  }

  /** `startInitConfig`: refuses an existing output file, otherwise yields the
      text written for the defaulted configuration. The name is not checked. */
  function StartInit(c: Config, out: string, outExists: bool): (r: Result<string, Error>)
    ensures r.Failure? <==> outExists
    ensures outExists ==> r.error == FileExists(out)
    ensures !outExists ==> r.value == Render(InitDefaults(c))
  {
    var d := InitDefaults(c);
    if outExists then Failure(FileExists(out)) else Success(Render(d))
  }

  /** The file `config init` writes shows the name on the name, display-name
      and description lines, whatever the name is, the empty name included. */
  lemma InitShowsNameThrice(c: Config, out: string)
    ensures StartInit(c, out, false).Success?
    ensures Contains(StartInit(c, out, false).value, "\nname: " + c.name + "\n")
    ensures Contains(StartInit(c, out, false).value, "\ndisplay_name: " + c.name + "\n")
    ensures Contains(StartInit(c, out, false).value, "\ndescription: " + c.name + "\n")
  {
    RenderFieldsVerbatim(InitDefaults(c));
  }
}
