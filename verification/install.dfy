/** The descriptor `install` hands to the service library, built from a
    loaded configuration. */
module Install {
  import opened ConfigFile

  /** The fields of the service library's configuration that `install` sets;
      `executable` is never assigned and keeps Go's zero value "", which the
      library reads as "the current executable". */
  datatype ServiceConfig = ServiceConfig(
    name: string,
    displayName: string,
    description: string,
    userName: string,
    arguments: Slice,
    executable: string,
    dependencies: Slice,
    workingDirectory: string,
    chRoot: string,
    option: map<string, string>)

  /** The single option set: every OS X entry, then every POSIX entry on top. */
  ghost predicate Overlaid(osx: map<string, string>, posix: map<string, string>, option: map<string, string>) {
    && option.Keys == osx.Keys + posix.Keys
    && (forall k :: k in posix ==> option[k] == posix[k])
    && (forall k :: k in osx && k !in posix ==> option[k] == osx[k])
  }

  /** The two `for k, v := range` loops of `install`, visiting keys in any
      order (Go map iteration order is unspecified). */
  method FlattenOptions(osx: map<string, string>, posix: map<string, string>)
    returns (option: map<string, string>)
    ensures Overlaid(osx, posix, option)
  {
    option := map[];
    var todo := osx.Keys;
    while todo != {}
      invariant todo <= osx.Keys
      invariant option.Keys == osx.Keys - todo
      invariant forall k :: k in option ==> option[k] == osx[k]
      decreases todo
    {
      var k :| k in todo;
      option := option[k := osx[k]];
      todo := todo - {k};
    }
    todo := posix.Keys;
    while todo != {}
      invariant todo <= posix.Keys
      invariant option.Keys == osx.Keys + (posix.Keys - todo)
      invariant forall k :: k in posix && k !in todo ==> option[k] == posix[k]
      invariant forall k :: k in osx && (k !in posix || k in todo) ==> option[k] == osx[k]
      decreases todo
    {
      var k :| k in todo;
      option := option[k := posix[k]];
      todo := todo - {k};
    }
  }

  /** The descriptor built at served.go lines 62-78. */
  function ToServiceConfig(c: Config): (d: ServiceConfig)
    ensures d.name == c.name && d.displayName == c.displayName && d.description == c.description
    ensures d.userName == c.userName && d.arguments == c.arguments && d.dependencies == c.dependencies
    ensures d.workingDirectory == c.workingDirectory && d.chRoot == c.chRoot
    ensures d.executable == ""
    ensures Overlaid(c.osxOpt, c.posixOpt, d.option)
  {
    ServiceConfig(c.name, c.displayName, c.description, c.userName, c.arguments, "",
                  c.dependencies, c.workingDirectory, c.chRoot, c.osxOpt + c.posixOpt)
  }

  /** The overlay is a single map whatever order the loops visit keys in. */
  lemma OverlaidUnique(osx: map<string, string>, posix: map<string, string>, o1: map<string, string>, o2: map<string, string>)
    requires Overlaid(osx, posix, o1) && Overlaid(osx, posix, o2)
    ensures o1 == o2
  {
    forall k | k in o1
      ensures o1[k] == o2[k]
    {
      if k !in posix {
        assert k in osx;
      }
    }
  }

  /** The executable of the configuration never reaches the descriptor. */
  lemma DescriptorIgnoresExecutable(c: Config, executable: string)
    ensures ToServiceConfig(c.(executable := executable)) == ToServiceConfig(c)
  {
  }

  /** OS X {x:1} and POSIX {x:2} give the single option x = 2. */
  lemma PosixWinsExample(c: Config)
    requires c.osxOpt == map["x" := "1"] && c.posixOpt == map["x" := "2"]
    ensures ToServiceConfig(c).option == map["x" := "2"]
  {
  }
}
