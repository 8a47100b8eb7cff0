/**
 Resolution of the file name that `load` fetches: the module path with the
 configured `templateExtension` appended, `.tpl` when the option is absent
 and nothing when it is explicitly `null`.
 */
module Extension {

  const DefaultExtension: string := ".tpl"

  /** The value of `templateExtension` once it is present: `null`, or a
      string that is appended. */
  datatype Extension = NullExtension | Suffix(text: string)

  /** The `hb` options as given: `Absent` when the key is missing (or the
      whole `hb` object is); a present key keeps its value. */
  datatype Setting = Absent | Present(value: Extension)

  /** `_.defaults(config.hb || {}, {templateExtension: '.tpl'})`: only a
      missing key takes the default; an explicit `null` stays `null`. */
  function Defaults(setting: Setting): (ext: Extension)
    ensures ext == NullExtension <==> setting == Present(NullExtension)
    ensures setting == Absent ==> ext == Suffix(DefaultExtension)
  {
    match setting
    case Absent => Suffix(DefaultExtension)
    case Present(value) => value
  }

  /** The name handed to the fetcher, before `toUrl`. */
  function FileName(filePath: string, setting: Setting): (fileName: string)
    ensures |filePath| <= |fileName| && fileName[..|filePath|] == filePath
    ensures fileName == filePath <==> Defaults(setting) in {NullExtension, Suffix("")}
  {
    match Defaults(setting)
    case NullExtension => filePath
    case Suffix(text) => filePath + text
  }

  /** The three cases of the option, each in terms of the path alone. */
  lemma FileNameCases(filePath: string, setting: Setting)
    ensures setting == Absent ==> FileName(filePath, setting) == filePath + ".tpl"
    ensures setting == Present(NullExtension) ==> FileName(filePath, setting) == filePath
    ensures forall ext :: setting == Present(Suffix(ext)) ==> FileName(filePath, setting) == filePath + ext
  {
  }

  /** The module path always starts the file name and what follows it is
      exactly the resolved suffix, so the path can be read back. */
  lemma FileNameRecoversPath(filePath: string, setting: Setting)
    ensures var fileName := FileName(filePath, setting);
      |filePath| <= |fileName| && fileName[..|filePath|] == filePath
    ensures var fileName := FileName(filePath, setting);
      fileName[|filePath|..] == (if Defaults(setting).Suffix? then Defaults(setting).text else "")
  {
  }

  /** The file name is the path itself exactly when the option is `null`
      or the empty string. */
  lemma FileNameUnchangedIff(filePath: string, setting: Setting)
    ensures FileName(filePath, setting) == filePath <==>
      setting == Present(NullExtension) || setting == Present(Suffix(""))
  {
    if FileName(filePath, setting) == filePath && setting != Present(NullExtension) {
      var ext := Defaults(setting).text;
      assert |filePath + ext| == |filePath| + |ext|;
      assert ext == "";
    }
  }

  /** The worked cases: `widgets/button` is fetched as `widgets/button.tpl`
      by default and unchanged when the option is `null`. */
  lemma FileNameExamples()
    ensures FileName("widgets/button", Absent) == "widgets/button.tpl"
    ensures FileName("widgets/button", Present(NullExtension)) == "widgets/button"
    ensures FileName("widgets/button", Present(Suffix(".hbs"))) == "widgets/button.hbs"
  {
  }
}
