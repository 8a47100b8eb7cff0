/**
 The loader plugin itself: the build map that `load` fills in build mode
 and `write` reads, the partial table that `registerPartial` writes, and
 the three operations over them. The templating engine's `compile` and
 `precompile` are given to the plugin as functions it knows nothing about.
 */
module Plugin {
  import opened Paths
  import opened Extension
  import opened BuildTemplate

  /** The loader's `config`, as far as `load` reads it. */
  datatype Config = Config(isBuild: bool, templateExtension: Setting)

  /** One call the delivery callback makes, in the order it makes them. */
  datatype Step<T> =
    | StoreBuild(key: string, fn: string)
    | Register(filePath: string, template: T)
    | Loaded(template: T)

  /** The partial table after `registerPartial(filePath, template)`. */
  function WithPartial<T>(partials: map<string, T>, filePath: string, template: T): (r: map<string, T>)
    ensures partials.Keys <= r.Keys && |r| <= |partials| + 1
  {
    if IsPartial(filePath) then partials[PartialName(filePath) := template] else partials
  }

  /** Registration touches the one derived name and nothing else; a path
      that names no partial leaves the table as it was. */
  lemma WithPartialFrame<T>(partials: map<string, T>, filePath: string, template: T)
    ensures !IsPartial(filePath) ==> WithPartial(partials, filePath, template) == partials
    ensures IsPartial(filePath) ==>
      var r := WithPartial(partials, filePath, template);
      PartialName(filePath) in r && r[PartialName(filePath)] == template &&
      r.Keys == partials.Keys + {PartialName(filePath)}
    ensures forall name :: name != PartialName(filePath) ==>
      (name in WithPartial(partials, filePath, template) <==> name in partials) &&
      (name in partials ==> WithPartial(partials, filePath, template)[name] == partials[name])
  {
  }

  /** Registering the same template again changes nothing. */
  lemma WithPartialIdempotent<T>(partials: map<string, T>, filePath: string, template: T)
    ensures WithPartial(WithPartial(partials, filePath, template), filePath, template) ==
      WithPartial(partials, filePath, template)
  {
  }

  /** Two paths that derive the same name: the later registration wins,
      silently. */
  lemma WithPartialLastWins<T>(partials: map<string, T>, first: string, a: T, second: string, b: T)
    requires IsPartial(first) && IsPartial(second) && PartialName(first) == PartialName(second)
    ensures WithPartial(WithPartial(partials, first, a), second, b) == WithPartial(partials, second, b)
  {
    var name := PartialName(second);
    var once := WithPartial(partials, first, a);
    assert once == partials[name := a];
    assert WithPartial(once, second, b) == once[name := b];
    UpdateTwice(partials, name, a, b);
  }

  /** A second update of the same key overwrites the first. */
  lemma UpdateTwice<K, V>(m: map<K, V>, k: K, a: V, b: V)
    ensures m[k := a][k := b] == m[k := b]
  {
  }

  /** `templates/<file>` and `partials/<file>` derive the same name, so
      registering both keeps only the later template. */
  lemma PartialNameCollision<T>(partials: map<string, T>, file: string, a: T, b: T)
    requires '/' !in file && |file| > 0 && file[0] == '_'
    ensures IsPartial(Templates + file) && IsPartial(Partials + file)
    ensures PartialName(Templates + file) == PartialName(Partials + file) == file
    ensures WithPartial(WithPartial(partials, Templates + file, a), Partials + file, b) == partials[file := b]
  {
    IsPartialUnderMarker(file);
    PartialNameUnderTemplates(file);
    PartialNameUnderPartials(file);
    WithPartialLastWins(partials, Templates + file, a, Partials + file, b);
  }

  class HandlebarsPlugin<T> {
    /** `Handlebars.compile`: source text to a live template. */
    const compile: string -> T
    /** `Handlebars.precompile`: source text to the JavaScript source of a
        template function. */
    const precompile: string -> string
    /** `registerPartial.toString()`, embedded in every emitted module. */
    const partialFunction: string

    /** `_buildMap`: module path to precompiled source, filled in build mode. */
    var buildMap: map<string, string>
    /** The engine's partial table, as far as this plugin writes it. */
    var partials: map<string, T>

    /** Every name the plugin registers is dotted: it holds no `/`. */
    ghost predicate Valid()
      reads this
    {
      forall name :: name in partials ==> '/' !in name
    }

    constructor (compile: string -> T, precompile: string -> string, partialFunction: string)
      ensures Valid()
      ensures this.compile == compile && this.precompile == precompile
      ensures this.partialFunction == partialFunction
      ensures buildMap == map[] && partials == map[]
    {
      this.compile := compile;
      this.precompile := precompile;
      this.partialFunction := partialFunction;
      buildMap := map[];
      partials := map[];
    }

    /** `registerPartial(filePath, template)`. */
    method RegisterPartial(filePath: string, template: T)
      requires Valid()
      modifies this`partials
      ensures Valid()
      ensures partials == WithPartial(old(partials), filePath, template)
    {
      var fileName := filePath[LastSlash(filePath) + 1..];
      assert fileName == LastSegment(filePath);
      if |fileName| > 0 && fileName[0] == '_' {
        var partialName := DotSlashes(StripDirs(filePath));
        assert partialName == PartialName(filePath);
        partials := partials[partialName := template];
      }
    }

    /** The callback `load` hands to the fetcher, run on the fetched
        `data`: store the precompiled source in build mode, compile,
        register under the module path, and report to the loader once. */
    method Deliver(filePath: string, isBuild: bool, data: string) returns (steps: seq<Step<T>>)
      requires Valid()
      modifies this`buildMap, this`partials
      ensures Valid()
      ensures buildMap == if isBuild then old(buildMap)[filePath := precompile(data)] else old(buildMap)
      ensures partials == WithPartial(old(partials), filePath, compile(data))
      ensures steps ==
        (if isBuild then [StoreBuild(filePath, precompile(data))] else []) +
        [Register(filePath, compile(data)), Loaded(compile(data))]
    {
      steps := [];
      if isBuild {
        var fn := precompile(data);
        buildMap := buildMap[filePath := fn];
        steps := [StoreBuild(filePath, fn)];
      }
      var template := compile(data);
      ghost var stored := buildMap;
      RegisterPartial(filePath, template);
      assert buildMap == stored;
      steps := steps + [Register(filePath, template), Loaded(template)];
    }

    /** `load(filePath, req, onLoad, config)` with the fetcher `fetch`
        standing for `text.get`: the name fetched is the path with the
        resolved extension, and the delivery runs on what it returns. */
    method Load(filePath: string, config: Config, fetch: string -> string)
      returns (fileName: string, steps: seq<Step<T>>)
      requires Valid()
      modifies this`buildMap, this`partials
      ensures Valid()
      ensures fileName == FileName(filePath, config.templateExtension)
      ensures var data := fetch(fileName);
        && buildMap == (if config.isBuild then old(buildMap)[filePath := precompile(data)] else old(buildMap))
        && partials == WithPartial(old(partials), filePath, compile(data))
        && steps ==
          (if config.isBuild then [StoreBuild(filePath, precompile(data))] else []) +
          [Register(filePath, compile(data)), Loaded(compile(data))]
    {
      fileName := filePath;
      var ext := Defaults(config.templateExtension);
      if ext != NullExtension {
        fileName := fileName + ext.text;
      }
      var data := fetch(fileName);
      steps := Deliver(filePath, config.isBuild, data);
    }

    /** `write(pluginName, moduleName, writeModule)`: the texts handed to
        `writeModule`, none for a module the build never loaded and the
        rendered module for one it did. The build map is only read. */
    method Write(pluginName: string, moduleName: string) returns (written: seq<string>)
      ensures moduleName !in buildMap ==> written == []
      ensures moduleName in buildMap ==>
        written == [ModuleText(pluginName, moduleName, partialFunction, buildMap[moduleName])]
    {
      written := [];
      if moduleName in buildMap {
        written := [ModuleText(pluginName, moduleName, partialFunction, buildMap[moduleName])];
      }
    }
  }

  /** A build pass with the default options over a fresh plugin: the
      plugin fetches `<path>.tpl`, reports the compiled template once, and
      its `write` emits one module defined as `<plugin>!<path>` holding the
      precompiled source, while a module that was never loaded is skipped. */
  method BuildPass<T>(compile: string -> T, precompile: string -> string, partialFunction: string,
                      fetch: string -> string, pluginName: string, filePath: string, other: string)
    returns (fileName: string, steps: seq<Step<T>>, written: seq<string>, skipped: seq<string>)
    requires Plain(pluginName) && Plain(filePath) && other != filePath
    ensures fileName == filePath + ".tpl"
    ensures var data := fetch(filePath + ".tpl");
      steps == [StoreBuild(filePath, precompile(data)), Register(filePath, compile(data)), Loaded(compile(data))]
    ensures written == [ModuleText(pluginName, filePath, partialFunction, precompile(fetch(filePath + ".tpl")))]
    ensures var id := Opening + pluginName + "!" + filePath + "\"";
      |id| <= |written[0]| && written[0][..|id|] == id
    ensures skipped == []
  {
    var plugin := new HandlebarsPlugin(compile, precompile, partialFunction);
    FileNameCases(filePath, Absent);
    fileName, steps := plugin.Load(filePath, Config(true, Absent), fetch);
    assert plugin.buildMap == map[filePath := precompile(fetch(fileName))];
    written := plugin.Write(pluginName, filePath);
    skipped := plugin.Write(pluginName, other);
    ModuleTextPlainNames(pluginName, filePath, partialFunction, precompile(fetch(fileName)));
  }

  /** The worked case: loading `a/b` for plugin `hb` fetches `a/b.tpl` and
      emits a module opening with `define("hb!a/b"`. */
  method BuildPassExample<T>(compile: string -> T, precompile: string -> string, partialFunction: string,
                             fetch: string -> string)
    returns (fileName: string, written: seq<string>, skipped: seq<string>)
    ensures fileName == "a/b.tpl"
    ensures |written| == 1 && |"define(\"hb!a/b\""| <= |written[0]|
    ensures written[0][..|"define(\"hb!a/b\""|] == "define(\"hb!a/b\""
    ensures skipped == []
  {
    var steps;
    fileName, steps, written, skipped := BuildPass(compile, precompile, partialFunction, fetch, "hb", "a/b", "unloaded/path");
    assert Opening + "hb" + "!" + "a/b" + "\"" == "define(\"hb!a/b\"";
  }
}
