# RequireJS Handlebars loader plugin, modelled in Dafny

The plugin (`handlebars.js`) loads a Handlebars template as an AMD module.
`load` resolves the template's file name and fetches it. When the text
arrives, the plugin compiles it, registers it as a partial when its file
name starts with `_`, and hands it to the loader. During an `r.js` build it
also records the precompiled source under the module path. `write` later
turns each recorded entry into a module text built from a fixed six-line
skeleton.

The model has four modules:

- `Paths` (`paths.dfy`): partial detection and the partial-name derivation
  of `registerPartial`. Both are pure string functions with lemmas about
  them.
- `Extension` (`extension.dfy`): the file name `load` fetches, given the
  `templateExtension` option.
- `BuildTemplate` (`build_template.dfy`): the text `_buildTemplate`
  renders. It includes the HTML escaping of the two double-brace
  parameters and a reader for the `define` id it starts with.
- `Plugin` (`plugin.dfy`): the class `HandlebarsPlugin`. Its two map fields
  are the build map and the engine's partial table. Its methods are
  `RegisterPartial`, `Deliver` (the callback of `load`), `Load` and
  `Write`, each proved against the functions above.

Partial names follow the regular expression at `handlebars.js:38`. It
removes both markers wherever they occur, in a single left-to-right pass
that does not rescan, and it keeps the `_`. A reading that strips only
leading `templates/`/`partials/` segments and drops the `_` would name
`templates/foo/_bar` `foo.bar`; the code names it as follows:

- `templates/foo/_bar` is named `foo._bar`;
- `partials/_baz` is named `_baz`;
- `mytemplates/_x` is named `my_x`.

The Handlebars engine is a parameter of the plugin. `compile` and
`precompile` are function values the plugin is constructed with, and
`registerPartial.toString()` is a constant string. The fetcher `text.get`
becomes a function argument of `Load`, `req.toUrl` is the identity, and
`onLoad` and `writeModule` are recorded as the values they receive.

## Model

| member | source | states |
|---|---|---|
| Paths.LastSlash | handlebars.js:36 | `lastIndexOf('/')`: -1 or the index of a `/`, with no `/` after it |
| Paths.LastSegment | handlebars.js:36 | the file name is a suffix of the path, contains no `/`, and is either the whole path or comes right after a `/` |
| Paths.IsPartial | handlebars.js:36-37 | a partial path contains `_` and does not end in `/` (an empty file name names no partial) |
| Paths.IsPartialIff | handlebars.js:36-37 | a path names a partial exactly when its final slash-free segment is non-empty and starts with `_` (both directions) |
| Paths.IsPartialExamples | handlebars.js:36-37 | `templates/foo/_bar` is a partial; `templates/foo/bar`, `a/_b/` (empty last segment) and the empty path are not |
| Paths.StripDirs | handlebars.js:38 | removing the markers never makes the path longer |
| Paths.StripDirsUnchangedIff | handlebars.js:38 | the marker pass leaves a path unchanged exactly when no `templates/` or `partials/` occurs anywhere in it |
| Paths.StripDirsSlashFree | handlebars.js:38 | text without `/` holds no marker and passes through unchanged |
| Paths.StripDirsKeepsTail | handlebars.js:38 | a slash-free tail is never touched: stripping `p + tail` strips `p` and keeps `tail` |
| Paths.StripDirsTempl | handlebars.js:38 | `templ` + `templates/` + t becomes `templ` followed by the pass over t: the five leading characters are kept and the marker after them is removed |
| Paths.StripDirsSinglePass | handlebars.js:38 | the pass does not rescan: `templtemplates/ates/` becomes `templates/`, which still holds a marker |
| Paths.DotSlashes | handlebars.js:38 | replacing `/` by `.` keeps the length and leaves no `/` |
| Paths.DotSlashesAt | handlebars.js:38 | every `/` becomes `.` and every other character stays where it was |
| Paths.DotSlashesAppend | handlebars.js:38 | the replacement works piece by piece over a concatenation |
| Paths.DotSlashesSlashFree | handlebars.js:38 | text without `/` is unchanged |
| Paths.PartialName | handlebars.js:38 | a derived partial name never contains `/` |
| Paths.Dir | handlebars.js:36 | the path is its directory part followed by its file name |
| Paths.PartialNameKeepsFileName | handlebars.js:36-38 | the name is the derived directory part followed by the file name verbatim; for a partial, the `_` stays at the start of the file name |
| Paths.LastSegmentAfterSlash | handlebars.js:36 | for `dir/seg` with slash-free `seg`, the last `/` is the one after `dir` and the file name is `seg` |
| Paths.PartialNameUnderTemplates | handlebars.js:38 | a file directly under `templates/` is named by its file name |
| Paths.PartialNameUnderPartials | handlebars.js:38 | a file directly under `partials/` is named by its file name |
| Paths.PartialNameUnderTemplatesFoo | handlebars.js:38 | a file under `templates/foo/` is named `foo.` followed by its file name |
| Paths.IsPartialUnderMarker | handlebars.js:36-37 | a file directly under either marker directory is a partial exactly when its name starts with `_` |
| Paths.PartialNameOfBar | handlebars.js:38 | `templates/foo/_bar` is named `foo._bar`: directory dropped, inner `/` dotted, `_` kept |
| Paths.PartialNameOfBaz | handlebars.js:38 | `partials/_baz` is named `_baz` |
| Paths.PartialNameInsideSegment | handlebars.js:38 | a marker inside a segment is removed too: `my` + `templates/` + file is named `my` + file |
| Paths.PartialNameOfMyX | handlebars.js:38 | `mytemplates/_x` is named `my_x` |
| Extension.Defaults | handlebars.js:45-47 | the resolved extension is `null` exactly when the option is explicitly `null`; a missing option resolves to `.tpl` |
| Extension.FileName | handlebars.js:44-51 | the fetched name opens with the module path, and equals it exactly when the resolved extension is `null` or `""` |
| Extension.FileNameCases | handlebars.js:44-51 | with the option absent the name is path + `.tpl`, with `null` it is the path, with a string it is path + string |
| Extension.FileNameRecoversPath | handlebars.js:44-51 | the fetched name opens with the module path, followed exactly by the resolved suffix |
| Extension.FileNameUnchangedIff | handlebars.js:45-51 | the fetched name equals the path exactly when the option is `null` or `""` |
| Extension.FileNameExamples | handlebars.js:44-51 | `widgets/button` is fetched as `widgets/button.tpl` by default, as is with `null`, and as `widgets/button.hbs` with `.hbs` |
| BuildTemplate.EscapeChar | handlebars.js:27-30 | a character outside `& < > " ' \` =` is kept; every entity is free of markup characters and contains no `!` |
| BuildTemplate.Escape | handlebars.js:27-30 | an escaped name has no markup characters and gains no `!` |
| BuildTemplate.EscapePlain | handlebars.js:27-30 | a name with no escapable character is emitted as is |
| BuildTemplate.Join | handlebars.js:26-33 | joining no lines gives the empty text; otherwise the joined text opens with the first line |
| BuildTemplate.Skeleton | handlebars.js:27-32 | the template has six lines, the first opening with `define("` and the last being `})` followed by a newline |
| BuildTemplate.ModuleText | handlebars.js:25-33 | the rendered module opens with the whole header line `define("<plugin>!<module>", ["handlebars"], function(Handlebars) {`, names escaped |
| BuildTemplate.ParseModuleId | handlebars.js:27 | a text not opening with `define("` has no id; a read id's plugin part holds no `!` and neither part holds a `"` |
| BuildTemplate.JoinSix | handlebars.js:26-33 | six lines joined with `\n` are the lines with one separator between each pair |
| BuildTemplate.SplitAt | handlebars.js:27 | a split fails exactly when the character is absent; otherwise it finds the first occurrence and the parts rebuild the text |
| BuildTemplate.SplitAtJoin | handlebars.js:27 | splitting `a + c + b` at `c`, with `c` not in `a`, gives back `a` and `b` |
| BuildTemplate.ParseOpening | handlebars.js:27 | the id read from a text opening `define("<id>"` is `<id>` split at `!` |
| BuildTemplate.ModuleIdRoundTrip | handlebars.js:25-33 | reading the emitted module's `define` id gives back the escaped plugin name and module name, for any plugin name without `!` |
| BuildTemplate.ModuleTextLines | handlebars.js:25-33 | the emitted text is the six skeleton lines separated by `\n` |
| BuildTemplate.ModuleTextEnds | handlebars.js:25-33 | the text opens with the `define("<plugin>!<module>", ["handlebars"], function(Handlebars) {` line and ends with `\n})\n` |
| BuildTemplate.ModuleTextShape | handlebars.js:28-30 | `fn` and the registration source appear verbatim on lines of their own, and the escaped module name is repeated in the `partialFunction("…", t)` line |
| BuildTemplate.ModuleTextPlainNames | handlebars.js:27-30 | for names without escapable characters, the text opens with `define("<plugin>!<module>"` and repeats the module name literally in the registration call |
| Plugin.WithPartial | handlebars.js:35-41 | registration never removes a name from the partial table and adds at most one |
| Plugin.WithPartialFrame | handlebars.js:35-41 | a path that names no partial leaves the table alone; a partial sets its derived name to the template and adds only that key; every other entry is unchanged |
| Plugin.WithPartialIdempotent | handlebars.js:39 | registering the same template again changes nothing |
| Plugin.WithPartialLastWins | handlebars.js:39 | two paths with the same derived name: the later registration silently replaces the earlier one |
| Plugin.PartialNameCollision | handlebars.js:38-39 | `templates/<file>` and `partials/<file>` are both partials named `<file>`, and registering both keeps only the second template |
| Plugin.HandlebarsPlugin.constructor | handlebars.js:17 | a fresh plugin has an empty build map and an empty partial table |
| Plugin.HandlebarsPlugin.RegisterPartial | handlebars.js:35-41 | the partial table becomes the old table updated by the registration rule, and every registered name stays free of `/` |
| Plugin.HandlebarsPlugin.Deliver | handlebars.js:53-62 | in build mode `precompile(data)` is stored under the module path and no other key changes; outside build mode the build map is unchanged; `compile(data)` is registered under the module path, not the file name; the calls are in order: store, register, then exactly one `onLoad` |
| Plugin.HandlebarsPlugin.Load | handlebars.js:43-62 | the fetched name is the resolved file name, and the delivery effects are those of `Deliver` on the fetched data |
| Plugin.HandlebarsPlugin.Write | handlebars.js:65-74 | without a recorded entry nothing is emitted; with one, exactly one module text is emitted, rendered from that entry; the build map is only read |
| Plugin.BuildPass | handlebars.js:43-74 | a default build over a fresh plugin fetches `<path>.tpl`, reports the compiled template once, emits one module defined as `<plugin>!<path>`, and emits nothing for a module never loaded |
| Plugin.BuildPassExample | handlebars.js:43-74 | loading `a/b` for plugin `hb` fetches `a/b.tpl` and emits a module opening with `define("hb!a/b"` |

## Left out

- Fetching: `text.get`, `req.toUrl` and the asynchronous callback are I/O. The fetcher is a function argument of `Load` and `toUrl` is the identity. No failed fetch and no callback that never arrives is modelled.
- Handlebars engine: `compile`, `precompile` and `template` are foreign. They are uninterpreted functions, so whether the compiled and precompiled templates render the same is not stated. Exceptions they might throw are not modelled.
- `registerPartial.toString()` is JavaScript source serialisation. It is the constant `partialFunction` given to the constructor.
- The AMD default-export check at `handlebars.js:19-22` is a packaging concern and has no counterpart.
- Plugin.HandlebarsPlugin.Write: the build map is a finite map, so keys that JavaScript's `in` finds on the object prototype (such as `toString`) are not modelled.
- Extension.FileNameCases: only a missing key takes the default, as `_.defaults` does in underscore 1.6 and later. Older underscore also defaulted an explicit `null`. That reading is not modelled.
- The in-place mutation of `config.hb` by `_.defaults` has no observable effect on the plugin and is not modelled. A `config` without the `hb` key is `Absent`. A `templateExtension` that is neither a string nor `null` (JavaScript would coerce it) is not modelled.
- BuildTemplate.EscapeChar: the escape set is the one of Handlebars 4 (`& < > " ' \` =`). Versions that escape a different set are not modelled.
- Concurrent loads interleaving their callbacks are not modelled. The only shared state is two last-write-wins maps, and each delivery is modelled as one atomic step.
