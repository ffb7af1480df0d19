# served: configuration core in Dafny

`served` is a command-line tool that registers a program as an operating-system
service. This project models its pure configuration logic:

- **Edit merge** (`config edit`, `startEditConfig`, `updateValue`,
  `isDefaultSlice`). Flag values are merged into a configuration loaded from
  disk. A scalar flag left at the sentinel `"!!!@@@"` keeps the old value. A
  list flag left at its default, a non-nil empty slice, keeps the old list.
  Any other list value replaces the old one wholesale, and that includes a
  nil slice. A `key:value` option list replaces its platform's whole option map.
- **Init defaulting** (`config init`, `startInitConfig`). Display name and
  description are copied from the name. The command refuses to overwrite an
  existing output file.
- **Descriptor mapping** (`install`). A configuration becomes the service
  library's `service.Config`. The OS X options and then the POSIX options are
  flattened into one option set, so POSIX wins on a shared key.
- **Rendering** (`writeConfig2File`, `configTmpl`). The configuration is
  written as the commented YAML template. Field values are inserted verbatim.
  List items and map entries follow the template's exact spacing, and map
  entries come in ascending key order, as `text/template` visits them.

Modules, one per source concern:

- `Wrappers` (wrappers.dfy): the `Option` and `Result` datatypes.
- `KeyOrder` (keyorder.dfy): Go's string order and the sorted key listing of a map.
- `ConfigFile` (config.dfy): the `Config` record and the renderer.
- `Served` (served.dfy): edit and init.
- `Install` (install.dfy): the service descriptor.

A Go `[]string` is modelled as `Slice = Nil | Made(elems)`. This keeps its
three observable states: nil, non-nil empty (`Made([])`) and non-empty. The
code treats only `Made([])` as "not supplied", because that is the edit flags'
default. Prose descriptions of the tool that call a nil slice "not supplied"
disagree with the code. This model follows the code, so a nil list or nil
option list counts as supplied (`Served.EditReplacesLists`,
`Served.EditNilOptionsClear`).

Abstracted inputs: the outcome of reading the file to edit is a
`Result<Config, Error>` parameter of `Served.StartEdit`. Whether the init
output file exists is a `bool` parameter of `Served.StartInit`. "Writing" a
file yields the rendered text.

## Model

| member | source | states |
|---|---|---|
| `Served.UpdateValue` | served.go:244-248 | the flag value replaces the field exactly when it differs from the default, otherwise the field is unchanged |
| `Served.IsDefaultSlice` | served.go:250-255 | a slice is "not supplied" iff it is non-nil and empty; nil and non-empty slices count as supplied |
| `Served.ColonIndex` | served.go:222 | finds the first ':' of a string, or reports that there is none |
| `Served.SplitOption` | served.go:222-225 | an entry splits iff it contains ':'; the key is the colon-free text before the first ':' and the value is everything after it, further colons included |
| `Served.SplitOptionJoin` | served.go:222 | round trip: joining a colon-free key and any value with ':' splits back into that key and value |
| `Served.ParseOptions` | served.go:221-227 | succeeds iff every entry has a colon; on failure the error names the first entry without one; on success the map holds exactly the entries' keys, each bound to the value of the last entry with that key |
| `Served.ReplaceOptions` | served.go:219-228 | the default list keeps the current map; any other list yields the freshly parsed map and never merges with the old one |
| `Served.MergeFields` | served.go:200-217 | the name, the five scalar fields and the two lists each take the flag value if it was supplied and keep the old value otherwise; executable and option maps are untouched |
| `Served.Edit` | served.go:199-239 | an empty name fails before anything else is considered; otherwise the edit succeeds iff both option lists are acceptable, the OS X list is checked before the POSIX list, and every field of the result is the supplied flag value or the original |
| `Served.EditNothingIsIdentity` | served.go:199-239 | an edit whose flags are all at their defaults returns the loaded configuration unchanged |
| `Served.EditScalarTouchesOnlyItsField` | served.go:200-210 | each supplied scalar flag changes its own field and no other |
| `Served.EditReplacesLists` | served.go:212-217 | a supplied argument or dependency list replaces the old list wholesale, nil included |
| `Served.EditReplacesOptions` | served.go:219-239 | a supplied option list replaces that platform's map by the parsed map only; old keys not re-supplied are gone |
| `Served.EditIdempotent` | served.go:199-239 | applying the same successful edit a second time changes nothing |
| `Served.EditOptionExample` | served.go:219-227 | old OS X options {a:1, b:2} edited with ["a:9"] become exactly {a:9} |
| `Served.EditBadOptionExample` | served.go:221-225 | an OS X entry "foo" without a colon fails the edit with the message "invalid oxs option: foo", whatever the POSIX flag holds |
| `Served.EditNilOptionsClear` | served.go:219-221 | a nil OS X option list counts as supplied and empties the OS X map |
| `Served.StartEdit` | served.go:191-242 | a read failure is reported before any flag is checked; otherwise the command fails exactly when the edit fails and writes the rendering of the edited configuration |
| `Served.Message` | served.go:222-235 | option errors end with the offending entry and the init error ends with the output path |
| `Served.InitDefaults` | served.go:181-182 | display name and description become the name; every other field is unchanged |
| `Served.StartInit` | served.go:177-189 | init fails iff the output file exists, with an error naming it; otherwise it writes the rendering of the defaulted configuration |
| `Served.InitShowsNameThrice` | served.go:181-188 | for any name, the empty one included, the written file shows it on the name, display-name and description lines |
| `Install.FlattenOptions` | served.go:72-78 | the two copy loops yield every OS X and POSIX key, with the POSIX value on shared keys, whatever order the maps are visited in |
| `Install.ToServiceConfig` | served.go:62-78 | the descriptor copies the eight fields verbatim, leaves the executable empty, and its options overlay the POSIX map on the OS X map |
| `Install.OverlaidUnique` | served.go:72-78 | the overlay determines a single map, so the loop result equals the descriptor's options |
| `Install.DescriptorIgnoresExecutable` | served.go:62-71 | the configuration's executable never reaches the descriptor |
| `Install.PosixWinsExample` | served.go:72-78 | OS X {x:1} and POSIX {x:2} flatten to {x:2} |
| `KeyOrder.MinKey` | config.go:142-143 | every non-empty key set has a least key in Go's string order |
| `KeyOrder.SortedKeys` | config.go:142-143 | the keys a map range visits: each key exactly once, in strictly ascending order |
| `KeyOrder.SortedListingUnique` | config.go:155-156 | any strictly ascending listing of a key set is that visiting order |
| `ConfigFile.Render` | config.go:102-103 | the rendered file always begins with the header comment line |
| `ConfigFile.RenderFieldsVerbatim` | config.go:102-156 | each scalar key line appears, empty value or not, as the key followed by the verbatim value on its own line; the list and map sections follow their keys directly, and the POSIX options close the file |
| `ConfigFile.RenderItemsAppend` | config.go:114-115 | the list text is one `" \n  - " + item + " "` per element, in element order |
| `ConfigFile.RenderMapFromListing` | config.go:142-143 | the map text is the entry lines taken in ascending key order |
| `ConfigFile.RenderMapAddGreatest` | config.go:142-143 | the empty map renders as nothing, and adding a key above all others appends its `" \n  " + k + ": " + v + " "` line at the end |
| `ConfigFile.RenderMapTwoKeys` | config.go:142-143 | two entries render smaller key first, whatever order they were inserted in |
| `ConfigFile.RenderMapExample` | config.go:142-143 | {b:2, a:1} renders as the a line followed by the b line |
| `ConfigFile.RenderIgnoresExecutable` | config.go:102-156 | two configurations that differ only in the executable render identically |
| `ConfigFile.RenderNilAsEmpty` | config.go:114-126 | a nil list and an empty list render identically |

## Left out

- Reading and parsing the configuration file (`ParseConfig`, YAML decoding) are left out. The YAML library is outside this model, so the loaded configuration or the read error is an input and no render/parse round trip is stated.
- File access is left out: `fileExists`, `os.OpenFile`, and the write errors of `writeConfig2File`. Existence is a boolean input, and a successful write is the rendered text.
- The `c == nil` checks of `startInitConfig` and `startEditConfig` are left out. Their callers always pass the address of a local struct, and a Dafny value cannot be nil.
- The cobra command tree, flag registration, CSV splitting of list flags, `exitWithErr`, `Run` and cmd/main.go are left out as command-line plumbing. The edit-flag defaults appear only as `Served.NoFlags`. The init-flag defaults (`--wd .` and the current user from `user.Current()`) are not modelled: `Served.StartInit` takes any configuration.
- `service.New`, `Install`, `Uninstall`, `Platform`, `program.Start`/`Stop` and the success and failure lines printed by `install` and `uninstall` are left out. They are calls into the service library or process output. The name-only descriptor of `uninstall` is not part of this model.
- `goutil.Map.Set` is assumed to be a flat key insertion. Option values are strings only: YAML-decoded booleans and their `fmt` formatting are not modelled, and a nil option map is not distinguished from an empty one, since no modelled operation can tell them apart.
- Go strings are byte strings and Dafny strings hold code points. Key order is code-point lexicographic order, which agrees with Go's byte order for valid UTF-8. Invalid UTF-8 is not modelled.
