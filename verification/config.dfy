/** The service configuration record and the commented YAML text that
    `writeConfig2File` produces for it by executing `configTmpl`. */
module ConfigFile {
  import opened KeyOrder

  /** A Go `[]string`, which has three observable states: `Nil`, a non-nil
      empty slice `Made([])`, and a non-empty slice `Made(xs)`. */
  datatype Slice = Nil | Made(elems: seq<string>) {
    /** What ranging over the slice visits; a nil slice visits nothing. */
    function Items(): seq<string> {
      if Nil? then [] else elems
    }
  }

  /** Installation parameters of one service. Option values are restricted to
      strings; a nil option map and an empty one are not distinguished. */
  datatype Config = Config(
    name: string,
    displayName: string,
    description: string,
    userName: string,
    arguments: Slice,
    executable: string,
    dependencies: Slice,
    workingDirectory: string,
    chRoot: string,
    osxOpt: map<string, string>,
    posixOpt: map<string, string>)

  /** The first line of every rendered configuration file. */
  const Header: string := "# Required name of the service. No spaces suggested."

  const DependenciesComment: string :=
    "\n# Array of service dependencies."
    + "\n# Not yet fully implemented on Linux or OS X:"
    + "\n# 1. Support linux-systemd dependencies, just put each full line as the"
    + "\n#     element of the string array, such as"
    + "\n#     \"After=network.target syslog.target\""
    + "\n#     \"Requires=syslog.target\""
    + "\n#     Note, such lines will be directly appended into the [Unit] of"
    + "\n#     the generated service config file, will not check their correctness."

  const OsxComment: string :=
    "\n"
    + "\n# System specific options and default value."
    + "\n#* OS X"
    + "\n#   LaunchdConfig: \"\"    - Use custom launchd config"
    + "\n#   KeepAlive: true"
    + "\n#   RunAtLoad: false"
    + "\n#   UserService: false   - Install as a current user service."
    + "\n#   SessionCreate: false - Create a full user session."

  const PosixComment: string :=
    "\n# * POSIX"
    + "\n#   SystemdScript: \"\"                 - Use custom systemd script"
    + "\n#   UpstartScript: \"\"                 - Use custom upstart script"
    + "\n#   SysvScript: \"\"                    - Use custom sysv script"
    + "\n#   ReloadSignal: \"USR1, ...\"         - Signal to send on reaload."
    + "\n#   PIDFile: \"\"                       - Location of the PID file."
    + "\n#   LogOutput: false                  - Redirect StdErr & StdOut to files."
    + "\n#   Restart: always                   - How shall service be restarted."
    + "\n#   SuccessExitStatus: \"\"             - The list of exit status that shall be considered as successful,"
    + "\n#                                     in addition to the default ones."

  /** `p` occurs somewhere inside `s`. */
  predicate Contains(s: string, p: string) {
    exists i :: 0 <= i <= |s| && p <= s[i..]
  }

  /** `s` ends with `p`. */
  predicate EndsWith(s: string, p: string) {
    |p| <= |s| && s[|s| - |p|..] == p
  }

  function Concat(ps: seq<string>): string {
    if ps == [] then "" else ps[0] + Concat(ps[1..])
  }

  lemma {:induction false} ConcatAppend(xs: seq<string>, ys: seq<string>)
    ensures Concat(xs + ys) == Concat(xs) + Concat(ys)
  {
    if xs == [] {
      assert xs + ys == ys;
    } else {
      assert (xs + ys)[1..] == xs[1..] + ys;
      ConcatAppend(xs[1..], ys);
    }
  }

  /** Text for one element of a `{{range}}` over a list. */
  function ItemLine(x: string): string {
    " \n  - " + x + " "
  }

  /** Text for one entry of a `{{range}}` over an option map. */
  function EntryLine(k: string, v: string): string {
    " \n  " + k + ": " + v + " "
  }

  /** Output of `{{range $i, $x := list}} \n  - {{$x}} {{end}}`. */
  function RenderItems(xs: seq<string>): string {
    if xs == [] then "" else ItemLine(xs[0]) + RenderItems(xs[1..])
  }

  /** The list text is one item line per element, in element order: rendering
      a concatenation concatenates the renderings. */
  lemma {:induction false} RenderItemsAppend(xs: seq<string>, ys: seq<string>)
    ensures RenderItems(xs + ys) == RenderItems(xs) + RenderItems(ys)
    ensures RenderItems([]) == ""
    ensures forall x :: RenderItems([x]) == ItemLine(x)
  {
    if xs == [] {
      assert xs + ys == ys;
    } else {
      assert (xs + ys)[1..] == xs[1..] + ys;
      RenderItemsAppend(xs[1..], ys);
    }
    forall x
      ensures RenderItems([x]) == ItemLine(x)
    {
      assert [x][1..] == [];
    }
  }

  /** Entry lines for the keys `ks` of `m`, in the order of `ks`. */
  function Entries(m: map<string, string>, ks: seq<string>): string
    requires forall i :: 0 <= i < |ks| ==> ks[i] in m
  {
    if ks == [] then "" else EntryLine(ks[0], m[ks[0]]) + Entries(m, ks[1..])
  }

  /** Output of `{{range $k, $v := m}} \n  {{$k}}: {{$v}} {{end}}`;
      text/template visits the entries of a map in ascending key order. */
  function RenderMap(m: map<string, string>): string {
    Entries(m, SortedKeys(m.Keys))
  }

  lemma {:induction false} EntriesAppend(m: map<string, string>, xs: seq<string>, ys: seq<string>)
    requires forall i :: 0 <= i < |xs| ==> xs[i] in m
    requires forall i :: 0 <= i < |ys| ==> ys[i] in m
    ensures Entries(m, xs + ys) == Entries(m, xs) + Entries(m, ys)
  {
    if xs == [] {
      assert xs + ys == ys;
    } else {
      assert (xs + ys)[1..] == xs[1..] + ys;
      EntriesAppend(m, xs[1..], ys);
    }
  }

  lemma {:induction false} EntriesAgree(m1: map<string, string>, m2: map<string, string>, ks: seq<string>)
    requires forall i :: 0 <= i < |ks| ==> ks[i] in m1 && ks[i] in m2 && m1[ks[i]] == m2[ks[i]]
    ensures Entries(m1, ks) == Entries(m2, ks)
  {
    if ks != [] {
      EntriesAgree(m1, m2, ks[1..]);
    }
  }

  /** The map text equals the entry lines of ANY strictly ascending listing of
      the map's keys: the rendering is fixed by key order alone. */
  lemma RenderMapFromListing(m: map<string, string>, ks: seq<string>)
    requires StrictlySorted(ks)
    requires forall i :: 0 <= i < |ks| ==> ks[i] in m
    requires forall k :: k in m ==> k in ks
    ensures RenderMap(m) == Entries(m, ks)
  {
    SortedListingUnique(ks, m.Keys);
  }

  /** Adding a key that sorts after every existing key appends its entry line
      at the end; together with `RenderMap(map[]) == ""` this pins the
      rendering of every map down to ascending key order. */
  lemma RenderMapAddGreatest(m: map<string, string>, k: string, v: string)
    requires forall j :: j in m ==> Less(j, k)
    ensures RenderMap(m[k := v]) == RenderMap(m) + EntryLine(k, v)
    ensures RenderMap(map[]) == ""
  {
    var sk := SortedKeys(m.Keys);
    var m' := m[k := v];
    ListingAddGreatest(m, k, v, sk);
    RenderMapFromListing(m', sk + [k]);
    EntriesAppend(m', sk, [k]);
    EntriesAgree(m', m, sk);
    assert [k][1..] == [];
  }

  lemma ListingAddGreatest(m: map<string, string>, k: string, v: string, sk: seq<string>)
    requires forall j :: j in m ==> Less(j, k)
    requires StrictlySorted(sk)
    requires forall i :: 0 <= i < |sk| ==> sk[i] in m
    requires forall j :: j in m ==> j in sk
    ensures StrictlySorted(sk + [k])
    ensures forall i :: 0 <= i < |sk + [k]| ==> (sk + [k])[i] in m[k := v]
    ensures forall j :: j in m[k := v] ==> j in sk + [k]
    ensures forall i :: 0 <= i < |sk| ==> sk[i] in m[k := v] && sk[i] in m && m[k := v][sk[i]] == m[sk[i]]
  {
    var ks := sk + [k];
    forall i, j | 0 <= i < j < |ks|
      ensures Less(ks[i], ks[j])
    {
      if j < |sk| {
        assert ks[i] == sk[i] && ks[j] == sk[j];
      } else {
        assert ks[i] == sk[i] && sk[i] in m;
      }
    }
    forall i | 0 <= i < |sk|
      ensures sk[i] != k
    {
      assert sk[i] in m;
    }
  }

  /** Two entries are rendered smaller key first. */
  lemma RenderMapTwoKeys(a: string, va: string, b: string, vb: string)
    requires Less(a, b)
    ensures RenderMap(map[b := vb, a := va]) == EntryLine(a, va) + EntryLine(b, vb)
  {
    var m := map[b := vb, a := va];
    var ks := [a, b];
    assert StrictlySorted(ks);
    assert forall k :: k in m ==> k in ks;
    RenderMapFromListing(m, ks);
    assert ks[1..] == [b];
    assert [b][1..] == [];
    assert m[a] == va && m[b] == vb;
    assert Entries(m, [b]) == EntryLine(b, vb) + "";
    assert Entries(m, ks) == EntryLine(a, va) + Entries(m, [b]);
  }

  /** Keys come out sorted whatever order the map was written in. */
  lemma RenderMapExample()
    ensures RenderMap(map["b" := "2", "a" := "1"]) == " \n  a: 1  \n  b: 2 "
  {
    assert LessEq("a", "b");
    RenderMapTwoKeys("a", "1", "b", "2");
  }

  const WindowsComment: string :=
    "\n"
    + "\n# The following fields are not supported on Windows."
    + "\n# Initial working directory."

  function NameLine(c: Config): string {
    "\nname: " + c.name + "\n"
  }

  function DisplayLine(c: Config): string {
    "\ndisplay_name: " + c.displayName + "\n"
  }

  function DescriptionLine(c: Config): string {
    "\ndescription: " + c.description + "\n"
  }

  function UserLine(c: Config): string {
    "\nusername: " + c.userName + "\n"
  }

  function ArgumentsSection(c: Config): string {
    "\narguments:" + RenderItems(c.arguments.Items()) + "\n"
  }

  function DependenciesSection(c: Config): string {
    "\ndependencies:" + RenderItems(c.dependencies.Items()) + "\n"
  }

  function DirectoryLines(c: Config): string {
    "\nworking_directory: " + c.workingDirectory + "\nchroot: " + c.chRoot + "\n"
  }

  function OsxSection(c: Config): string {
    "\nosx_opt:" + RenderMap(c.osxOpt) + "\n"
  }

  function PosixSection(c: Config): string {
    "\nposix_opt:" + RenderMap(c.posixOpt)
  }

  function DisplayBlock(c: Config): string {
    "\n# Display name, spaces allowed." + DisplayLine(c)
  }

  function DescriptionBlock(c: Config): string {
    "\n# Long description of service." + DescriptionLine(c)
  }

  function UserBlock(c: Config): string {
    "\n# Run as username." + UserLine(c)
  }

  function DependenciesBlock(c: Config): string {
    DependenciesComment + DependenciesSection(c)
  }

  function DirectoryBlock(c: Config): string {
    WindowsComment + DirectoryLines(c)
  }

  function OsxBlock(c: Config): string {
    OsxComment + OsxSection(c)
  }

  function PosixBlock(c: Config): string {
    PosixComment + PosixSection(c)
  }

  /** The template split into consecutive blocks: literal text interleaved
      with the field values, each value inserted verbatim. */
  function Blocks(c: Config): seq<string> {
    [ Header, NameLine(c), DisplayBlock(c), DescriptionBlock(c), UserBlock(c),
      ArgumentsSection(c), DependenciesBlock(c), DirectoryBlock(c), OsxBlock(c),
      PosixBlock(c) ]
  }

  /** The text `writeConfig2File` writes for `c`. */
  function Render(c: Config): (r: string)
    ensures Header <= r
  {
    Concat(Blocks(c))
  }

  lemma ContainsLeft(s: string, t: string)
    ensures Contains(s + t, s)
  {
    assert s <= (s + t)[0..];
  }

  lemma ContainsRight(s: string, t: string)
    ensures Contains(s + t, t)
  {
    assert t <= (s + t)[|s|..];
  }

  lemma ContainsTransitive(s: string, t: string, p: string)
    requires Contains(s, t) && Contains(t, p)
    ensures Contains(s, p)
  {
    var i :| 0 <= i <= |s| && t <= s[i..];
    var j :| 0 <= j <= |t| && p <= t[j..];
    assert p <= s[i + j..];
  }

  lemma EndsWithRight(s: string, t: string)
    ensures EndsWith(s + t, t)
  {
    assert (s + t)[|s|..] == t;
  }

  lemma EndsWithTransitive(s: string, t: string, p: string)
    requires EndsWith(s, t) && EndsWith(t, p)
    ensures EndsWith(s, p)
  {
    assert s[|s| - |p|..] == t[|t| - |p|..];
  }

  lemma {:induction false} ConcatContainsElement(ps: seq<string>, k: nat)
    requires k < |ps|
    ensures Contains(Concat(ps), ps[k])
  {
    if k == 0 {
      ContainsLeft(ps[0], Concat(ps[1..]));
    } else {
      ConcatContainsElement(ps[1..], k - 1);
      ContainsRight(ps[0], Concat(ps[1..]));
      ContainsTransitive(Concat(ps), Concat(ps[1..]), ps[k]);
    }
  }

  lemma {:induction false} ConcatEndsWithLast(ps: seq<string>)
    requires ps != []
    ensures EndsWith(Concat(ps), ps[|ps| - 1])
  {
    if |ps| == 1 {
      assert ps[1..] == [];
      assert Concat(ps) == ps[0] + "";
      EndsWithRight(ps[0], "");
    } else {
      ConcatEndsWithLast(ps[1..]);
      EndsWithRight(ps[0], Concat(ps[1..]));
      EndsWithTransitive(Concat(ps), Concat(ps[1..]), ps[|ps| - 1]);
    }
  }

  /** The `k`-th block of the template occurs in the rendered text. */
  lemma BlockInRender(c: Config, k: nat)
    requires k < 10
    ensures Contains(Render(c), Blocks(c)[k])
  {
    ConcatContainsElement(Blocks(c), k);
  }

  lemma IdentityLinesInRender(c: Config)
    ensures Contains(Render(c), NameLine(c))
    ensures Contains(Render(c), DisplayLine(c))
    ensures Contains(Render(c), DescriptionLine(c))
    ensures Contains(Render(c), UserLine(c))
  {
    BlockInRender(c, 1);
    BlockInRender(c, 2);
    ContainsRight("\n# Display name, spaces allowed.", DisplayLine(c));
    ContainsTransitive(Render(c), DisplayBlock(c), DisplayLine(c));
    BlockInRender(c, 3);
    ContainsRight("\n# Long description of service.", DescriptionLine(c));
    ContainsTransitive(Render(c), DescriptionBlock(c), DescriptionLine(c));
    BlockInRender(c, 4);
    ContainsRight("\n# Run as username.", UserLine(c));
    ContainsTransitive(Render(c), UserBlock(c), UserLine(c));
  }

  lemma MiddleSectionsInRender(c: Config)
    ensures Contains(Render(c), ArgumentsSection(c))
    ensures Contains(Render(c), DependenciesSection(c))
    ensures Contains(Render(c), DirectoryLines(c))
  {
    BlockInRender(c, 5);
    BlockInRender(c, 6);
    ContainsRight(DependenciesComment, DependenciesSection(c));
    ContainsTransitive(Render(c), DependenciesBlock(c), DependenciesSection(c));
    BlockInRender(c, 7);
    ContainsRight(WindowsComment, DirectoryLines(c));
    ContainsTransitive(Render(c), DirectoryBlock(c), DirectoryLines(c));
  }

  lemma OptionSectionsInRender(c: Config)
    ensures Contains(Render(c), OsxSection(c))
    ensures EndsWith(Render(c), PosixSection(c))
  {
    BlockInRender(c, 8);
    ContainsRight(OsxComment, OsxSection(c));
    ContainsTransitive(Render(c), OsxBlock(c), OsxSection(c));
    ConcatEndsWithLast(Blocks(c));
    EndsWithRight(PosixComment, PosixSection(c));
    EndsWithTransitive(Render(c), PosixBlock(c), PosixSection(c));
  }

  /** Every scalar key line is emitted, empty value or not, as the key, a
      colon, a space and the field value verbatim, on a line of its own; the
      list and map sections are the key followed directly by their entries. */
  lemma RenderFieldsVerbatim(c: Config)
    ensures Contains(Render(c), "\nname: " + c.name + "\n")
    ensures Contains(Render(c), "\ndisplay_name: " + c.displayName + "\n")
    ensures Contains(Render(c), "\ndescription: " + c.description + "\n")
    ensures Contains(Render(c), "\nusername: " + c.userName + "\n")
    ensures Contains(Render(c), "\nworking_directory: " + c.workingDirectory + "\nchroot: " + c.chRoot + "\n")
    ensures Contains(Render(c), "\narguments:" + RenderItems(c.arguments.Items()) + "\n")
    ensures Contains(Render(c), "\ndependencies:" + RenderItems(c.dependencies.Items()) + "\n")
    ensures Contains(Render(c), "\nosx_opt:" + RenderMap(c.osxOpt) + "\n")
    ensures EndsWith(Render(c), "\nposix_opt:" + RenderMap(c.posixOpt))
  {
    IdentityLinesInRender(c);
    MiddleSectionsInRender(c);
    OptionSectionsInRender(c);
  }

  /** The file has no `executable` line: configs that differ only in the
      executable render identically. */
  lemma RenderIgnoresExecutable(c: Config, executable: string)
    ensures Render(c.(executable := executable)) == Render(c)
  {
  }

  /** Ranging over a nil slice and over an empty one produce the same text. */
  lemma RenderNilAsEmpty(c: Config)
    ensures Render(c.(arguments := Nil)) == Render(c.(arguments := Made([])))
    ensures Render(c.(dependencies := Nil)) == Render(c.(dependencies := Made([])))
  {
  }
}
