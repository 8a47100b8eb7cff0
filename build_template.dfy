/**
 The module text that `write` emits for a template recorded at build time:
 the fixed six-line skeleton of `_buildTemplate`, with the plugin and module
 names HTML-escaped (double braces) and the precompiled template and the
 partial-registration source inserted verbatim (triple braces).
 */
module BuildTemplate {

  datatype Option<T> = None | Some(value: T)

  /** The characters Handlebars' `escapeExpression` replaces. */
  const Escapable: string := "&<>\"'`="

  /** None of the characters an entity stands for, except the `&` that
      starts every entity. */
  predicate NoMarkup(s: string)
  {
    '<' !in s && '>' !in s && '"' !in s && '\'' !in s && '`' !in s && '=' !in s
  }

  /** The entity Handlebars writes for one character. */
  function EscapeChar(c: char): (r: string)
    ensures c !in Escapable ==> r == [c]
    ensures NoMarkup(r)
    ensures '!' in r ==> c == '!'
  {
    match c
    case '&' => "&amp;"
    case '<' => "&lt;"
    case '>' => "&gt;"
    case '"' => "&quot;"
    case '\'' => "&#x27;"
    case '`' => "&#x60;"
    case '=' => "&#x3D;"
    case _ => [c]
  }

  /** The value of a double-brace expression: every escapable character
      replaced by its entity. */
  function Escape(s: string): (r: string)
    ensures NoMarkup(r)
    ensures '!' in r ==> '!' in s
  {
    if s == [] then []
    else EscapeChar(s[0]) + Escape(s[1..])
  }

  /** Text in which Handlebars escapes nothing. */
  predicate Plain(s: string)
  {
    forall i :: 0 <= i < |s| ==> s[i] !in Escapable
  }

  /** Plain text is emitted as it is. */
  lemma {:induction false} EscapePlain(s: string)
    requires Plain(s)
    ensures Escape(s) == s
  {
    if s != [] {
      assert s[0] !in Escapable;
      EscapePlain(s[1..]);
    }
  }

  const Opening: string := "define(\""
  const HeaderEnd: string := "\", [\"handlebars\"], function(Handlebars) {"

  /** `lines.join(sep)`. */
  function Join(lines: seq<string>, sep: string): (r: string)
    ensures |lines| == 0 ==> r == ""
    ensures |lines| > 0 ==> lines[0] <= r
  {
    if |lines| == 0 then ""
    else if |lines| == 1 then lines[0]
    else lines[0] + sep + Join(lines[1..], sep)
  }

  /** The six lines of `_buildTemplate` once rendered. */
  function Skeleton(pluginName: string, moduleName: string, partialFunction: string, fn: string): (lines: seq<string>)
    ensures |lines| == 6
    ensures Opening <= lines[0]
    ensures lines[5] == "})\n"
  {
    [ Opening + Escape(pluginName) + "!" + Escape(moduleName) + HeaderEnd,
      "   var t = Handlebars.template(" + fn + ")",
      "   var partialFunction = " + partialFunction,
      "   partialFunction(\"" + Escape(moduleName) + "\", t)",
      "   return t",
      "})\n" ]
  }

  /** The rendered `_buildTemplate`: its lines joined by `\n`. */
  function ModuleText(pluginName: string, moduleName: string, partialFunction: string, fn: string): (text: string)
    ensures Opening + Escape(pluginName) + "!" + Escape(moduleName) + HeaderEnd <= text
  {
    Join(Skeleton(pluginName, moduleName, partialFunction, fn), "\n")
  }

  /** Joining a line in front of at least one more. */
  lemma JoinCons(line: string, rest: seq<string>, sep: string)
    requires |rest| > 0
    ensures Join([line] + rest, sep) == line + (sep + Join(rest, sep))
  {
    assert ([line] + rest)[1..] == rest;
  }

  /** Six lines joined, one after another. */
  lemma JoinSix(a: string, b: string, c: string, d: string, e: string, f: string, sep: string)
    ensures Join([a, b, c, d, e, f], sep) ==
      a + (sep + (b + (sep + (c + (sep + (d + (sep + (e + (sep + f)))))))))
  {
    assert [a, b, c, d, e, f] == [a] + [b, c, d, e, f];
    JoinCons(a, [b, c, d, e, f], sep);
    assert [b, c, d, e, f] == [b] + [c, d, e, f];
    JoinCons(b, [c, d, e, f], sep);
    assert [c, d, e, f] == [c] + [d, e, f];
    JoinCons(c, [d, e, f], sep);
    assert [d, e, f] == [d] + [e, f];
    JoinCons(d, [e, f], sep);
    assert [e, f] == [e] + [f];
    JoinCons(e, [f], sep);
  }

  /** `s` split at its first `c`, if it has one. */
  function SplitAt(s: string, c: char): (r: Option<(string, string)>)
    ensures r.None? <==> c !in s
    ensures r.Some? ==> s == r.value.0 + [c] + r.value.1 && c !in r.value.0
  {
    if s == [] then None
    else if s[0] == c then Some(([], s[1..]))
    else match SplitAt(s[1..], c)
      case None => None
      case Some((before, after)) => Some(([s[0]] + before, after))
  }

  /** Splitting finds the first `c`, so it undoes the joining of a
      `c`-free prefix. */
  lemma {:induction false} SplitAtJoin(a: string, c: char, b: string)
    requires c !in a
    ensures SplitAt(a + [c] + b, c) == Some((a, b))
  {
    if a != [] {
      var s := a + [c] + b;
      assert s[0] == a[0] && s[1..] == a[1..] + [c] + b;
      SplitAtJoin(a[1..], c, b);
      assert [a[0]] + a[1..] == a;
    }
  }

  /** What a loader reads from the first line of an emitted module: the
      plugin and module names of the `define("<plugin>!<module>"` id. */
  function ParseModuleId(text: string): (r: Option<(string, string)>)
    ensures !(Opening <= text) ==> r.None?
    ensures r.Some? ==> '!' !in r.value.0 && '"' !in r.value.0 + r.value.1
  {
    if !(Opening <= text) then None
    else match SplitAt(text[|Opening|..], '"')
      case None => None
      case Some((id, _)) => SplitAt(id, '!')
  }

  /** Reading the id of any text that opens with `define("<id>"`. */
  lemma ParseOpening(id: string, rest: string)
    requires '"' !in id
    ensures ParseModuleId(Opening + (id + ("\"" + rest))) == SplitAt(id, '!')
  {
    var text := Opening + (id + ("\"" + rest));
    assert text[|Opening|..] == id + ['"'] + rest;
    SplitAtJoin(id, '"', rest);
  }

  /** The first line's pieces, regrouped around the id. */
  lemma RegroupHeader(opening: string, p: string, m: string, quote: string, tail: string, after: string)
    ensures opening + p + "!" + m + (quote + tail) + after ==
      opening + ((p + "!" + m) + (quote + (tail + after)))
  {
  }

  /** The emitted module is defined under `<plugin>!<module>`: the id can
      be read back, escaped, for every plugin name without a `!`. */
  lemma ModuleIdRoundTrip(pluginName: string, moduleName: string, partialFunction: string, fn: string)
    requires '!' !in pluginName
    ensures ParseModuleId(ModuleText(pluginName, moduleName, partialFunction, fn)) ==
      Some((Escape(pluginName), Escape(moduleName)))
  {
    var p, m := Escape(pluginName), Escape(moduleName);
    var l := Skeleton(pluginName, moduleName, partialFunction, fn);
    JoinSix(l[0], l[1], l[2], l[3], l[4], l[5], "\n");
    assert l == [l[0], l[1], l[2], l[3], l[4], l[5]];
    var after := "\n" + (l[1] + ("\n" + (l[2] + ("\n" + (l[3] + ("\n" + (l[4] + ("\n" + l[5]))))))));
    var id := p + "!" + m;
    var rest := HeaderEnd[1..] + after;
    assert HeaderEnd == "\"" + HeaderEnd[1..];
    RegroupHeader(Opening, p, m, "\"", HeaderEnd[1..], after);
    ParseOpening(id, rest);
    SplitAtJoin(p, '!', m);
  }

  /** `piece` occurs in `text` at `i`. */
  predicate OccursAt(text: string, piece: string, i: int)
  {
    0 <= i <= |text| - |piece| && text[i..i + |piece|] == piece
  }

  /** A line framed by separators, found right after what precedes it. */
  lemma FramedAt(before: string, line: string, rest: string, sep: string)
    ensures OccursAt(before + (sep + (line + (sep + rest))), sep + line + sep, |before|)
  {
    var text := before + (sep + (line + (sep + rest)));
    assert text == before + (sep + line + sep) + rest;
  }

  /** Moving one line from the rest into what precedes. */
  lemma Shift(before: string, line: string, rest: string, sep: string)
    ensures before + (sep + (line + rest)) == (before + (sep + line)) + rest
  {
  }

  /** The rendered module, line by line. */
  lemma ModuleTextLines(pluginName: string, moduleName: string, partialFunction: string, fn: string)
    ensures var l := Skeleton(pluginName, moduleName, partialFunction, fn);
      ModuleText(pluginName, moduleName, partialFunction, fn) ==
        l[0] + ("\n" + (l[1] + ("\n" + (l[2] + ("\n" + (l[3] + ("\n" + (l[4] + ("\n" + l[5])))))))))
  {
    var l := Skeleton(pluginName, moduleName, partialFunction, fn);
    JoinSix(l[0], l[1], l[2], l[3], l[4], l[5], "\n");
    assert l == [l[0], l[1], l[2], l[3], l[4], l[5]];
  }

  /** The first part of a concatenation is a prefix of it. */
  lemma PrefixOfConcat(a: string, b: string)
    ensures |a| <= |a + b| && (a + b)[..|a|] == a
  {
  }

  /** The last part of a concatenation is a suffix of it. */
  lemma SuffixOfConcat(a: string, b: string)
    ensures |b| <= |a + b| && (a + b)[|a + b| - |b|..] == b
  {
  }

  /** Six lines joined open with the first line and its separator, and
      close with the separator and the last line. */
  lemma SixEnds(a: string, b: string, c: string, d: string, e: string, f: string, sep: string)
    ensures var text := a + (sep + (b + (sep + (c + (sep + (d + (sep + (e + (sep + f)))))))));
      |a + sep| <= |text| && text[..|a + sep|] == a + sep
    ensures var text := a + (sep + (b + (sep + (c + (sep + (d + (sep + (e + (sep + f)))))))));
      |sep + f| <= |text| && text[|text| - |sep + f|..] == sep + f
  {
    var middle := b + (sep + (c + (sep + (d + (sep + e)))));
    var text := a + (sep + (b + (sep + (c + (sep + (d + (sep + (e + (sep + f)))))))));
    assert text == (a + sep) + (middle + (sep + f));
    PrefixOfConcat(a + sep, middle + (sep + f));
    assert text == (a + (sep + middle)) + (sep + f);
    SuffixOfConcat(a + (sep + middle), sep + f);
  }

  /** The module opens with the `define` header and its `handlebars`
      dependency, and closes with the `})` line. */
  lemma ModuleTextEnds(pluginName: string, moduleName: string, partialFunction: string, fn: string)
    ensures var text := ModuleText(pluginName, moduleName, partialFunction, fn);
      var header := Opening + Escape(pluginName) + "!" + Escape(moduleName) + HeaderEnd + "\n";
      |header| <= |text| && text[..|header|] == header
    ensures var text := ModuleText(pluginName, moduleName, partialFunction, fn);
      |text| >= 4 && text[|text| - 4..] == "\n})\n"
  {
    var l := Skeleton(pluginName, moduleName, partialFunction, fn);
    ModuleTextLines(pluginName, moduleName, partialFunction, fn);
    SixEnds(l[0], l[1], l[2], l[3], l[4], l[5], "\n");
  }

  /** The precompiled template and the registration source are inserted
      verbatim on lines of their own, and the registration call repeats
      the module name. */
  lemma ModuleTextShape(pluginName: string, moduleName: string, partialFunction: string, fn: string)
    ensures exists i :: OccursAt(ModuleText(pluginName, moduleName, partialFunction, fn),
                                 "\n" + ("   var t = Handlebars.template(" + fn + ")") + "\n", i)
    ensures exists i :: OccursAt(ModuleText(pluginName, moduleName, partialFunction, fn),
                                 "\n" + ("   var partialFunction = " + partialFunction) + "\n", i)
    ensures exists i :: OccursAt(ModuleText(pluginName, moduleName, partialFunction, fn),
                                 "\n" + ("   partialFunction(\"" + Escape(moduleName) + "\", t)") + "\n", i)
  {
    var text := ModuleText(pluginName, moduleName, partialFunction, fn);
    var l := Skeleton(pluginName, moduleName, partialFunction, fn);
    var sep := "\n";
    ModuleTextLines(pluginName, moduleName, partialFunction, fn);
    var r4 := sep + (l[4] + (sep + l[5]));
    var r3 := sep + (l[3] + r4);
    var r2 := sep + (l[2] + r3);
    FramedAt(l[0], l[1], (l[2] + r3), sep);
    var b1 := l[0] + (sep + l[1]);
    Shift(l[0], l[1], r2, sep);
    FramedAt(b1, l[2], (l[3] + r4), sep);
    var b2 := b1 + (sep + l[2]);
    Shift(b1, l[2], r3, sep);
    FramedAt(b2, l[3], (l[4] + (sep + l[5])), sep);
  }

  /** The header line opens with the quoted id. */
  lemma HeaderHasId(opening: string, p: string, m: string, tail: string)
    ensures opening + p + "!" + m + ("\"" + tail) + "\n" == (opening + p + "!" + m + "\"") + (tail + "\n")
  {
  }

  /** A prefix of a prefix. */
  lemma PrefixOfPrefix(text: string, header: string, id: string, rest: string)
    requires |header| <= |text| && text[..|header|] == header && header == id + rest
    ensures |id| <= |text| && text[..|id|] == id
  {
    assert text[..|id|] == header[..|id|];
  }

  /** For names Handlebars does not escape, the header names the module
      `<plugin>!<module>` and the registration call repeats the module name
      literally. */
  lemma ModuleTextPlainNames(pluginName: string, moduleName: string, partialFunction: string, fn: string)
    requires Plain(pluginName) && Plain(moduleName)
    ensures var text := ModuleText(pluginName, moduleName, partialFunction, fn);
      var id := Opening + pluginName + "!" + moduleName + "\"";
      |id| <= |text| && text[..|id|] == id
    ensures exists i :: OccursAt(ModuleText(pluginName, moduleName, partialFunction, fn),
                                 "\n" + ("   partialFunction(\"" + moduleName + "\", t)") + "\n", i)
  {
    EscapePlain(pluginName);
    EscapePlain(moduleName);
    ModuleTextEnds(pluginName, moduleName, partialFunction, fn);
    ModuleTextShape(pluginName, moduleName, partialFunction, fn);
    var text := ModuleText(pluginName, moduleName, partialFunction, fn);
    var header := Opening + pluginName + "!" + moduleName + HeaderEnd + "\n";
    var id := Opening + pluginName + "!" + moduleName + "\"";
    assert HeaderEnd == "\"" + HeaderEnd[1..];
    HeaderHasId(Opening, pluginName, moduleName, HeaderEnd[1..]);
    PrefixOfPrefix(text, header, id, HeaderEnd[1..] + "\n");
  }
}
