/** processDescription (buildFromTernDefinition.js:280-426): turns one
    documented member into its JSDoc comment and TypeScript signature. It
    takes the definition code block out of the member's description,
    retypes the first `string` parameter of an enumeration and pushes an
    interface inferred from a JSON sample onto the enclosing structure. */
module Descriptions {
  import opened Results
  import opened Text
  import opened Js
  import opened Rewrites

  /** A description item: a code block or prose, as html and as plain text. */
  datatype Item = Item(isCode: bool, html: string, text: string)

  datatype Param = Param(name: string, ty: string, description: string)

  /** `ty == ""` stands for a missing or empty return type. */
  datatype Returns = Returns(ty: string, description: string)

  datatype Interface = Interface(name: string, content: string)

  datatype Options = Options(checkForInterface: bool, extractDefinition: bool)

  /** What processDescription uses but does not own: the turndown markdown
      renderer, `JSON.parse` (`None` when it throws) and the list exported
      by ignoreFunctionsWithoutType.js. */
  datatype Env = Env(render: string -> string, parse: string -> Option<Json>, ignoreEntries: seq<string>)

  /** A structure or one of its members (the `structure` and `CurrentProperty`
      records of lines 108-160). */
  class Doc {
    var title: string
    var description: seq<Item>
    var parameters: seq<Param>
    var result: Returns
    var enumValues: seq<string>
    var isClass: bool
    var isGlobal: bool
    var properties: seq<Doc>
    var interfaces: seq<Interface>

    constructor(title: string, description: seq<Item>, parameters: seq<Param>, result: Returns,
                enumValues: seq<string>, isClass: bool, isGlobal: bool, properties: seq<Doc>)
      ensures this.title == title && this.description == description && this.parameters == parameters
      ensures this.result == result && this.enumValues == enumValues
      ensures this.isClass == isClass && this.isGlobal == isGlobal && this.properties == properties
      ensures this.interfaces == []
    {
      this.title := title;
      this.description := description;
      this.parameters := parameters;
      this.result := result;
      this.enumValues := enumValues;
      this.isClass := isClass;
      this.isGlobal := isGlobal;
      this.properties := properties;
      this.interfaces := [];
    }
  }

  // ---------------------------------------------------------------------
  // Taking out the definition block (lines 288-294).

  predicate DefinesMember(it: Item, title: string) {
    it.isCode && DefinesTitle(it.text, title)
  }

  function CodeCount(items: seq<Item>): (n: nat)
    ensures n <= |items|
  {
    if items == [] then 0 else (if items[0].isCode then 1 else 0) + CodeCount(items[1..])
  }

  function DefinitionFrom(items: seq<Item>, title: string, from: nat): (r: Option<nat>)
    decreases |items| - from
    ensures r.Some? ==> from <= r.value < |items| && DefinesMember(items[r.value], title)
    ensures r.Some? ==> forall j :: from <= j < r.value ==> !DefinesMember(items[j], title)
    ensures r.None? ==> forall j :: from <= j < |items| ==> !DefinesMember(items[j], title)
  {
    if from >= |items| then None
    else if DefinesMember(items[from], title) then Some(from)
    else DefinitionFrom(items, title, from + 1)
  }

  /** Line 292: the first code block whose text defines the member. */
  function FirstDefinition(items: seq<Item>, title: string): (r: Option<nat>)
    ensures r.Some? ==> r.value < |items| && DefinesMember(items[r.value], title)
    ensures r.Some? ==> forall j :: 0 <= j < r.value ==> !DefinesMember(items[j], title)
    ensures r.None? <==> forall j :: 0 <= j < |items| ==> !DefinesMember(items[j], title)
  {
    DefinitionFrom(items, title, 0)
  }

  /** The index of the first parameter typed `string`, searching from `from`. */
  function FirstStringFrom(ps: seq<Param>, from: nat): (r: Option<nat>)
    decreases |ps| - from
    ensures r.Some? ==> from <= r.value < |ps| && ps[r.value].ty == "string" &&
                        forall j :: from <= j < r.value ==> ps[j].ty != "string"
    ensures r.None? ==> forall j :: from <= j < |ps| ==> ps[j].ty != "string"
  {
    if from >= |ps| then None
    else if ps[from].ty == "string" then Some(from)
    else FirstStringFrom(ps, from + 1)
  }

  /** Lines 326-333: the first parameter typed `string`, and only that one,
      gets the union; without one the parameters stay as they are. */
  function Retyped(ps: seq<Param>, union: string): (r: seq<Param>)
    ensures |r| == |ps|
    ensures (forall i :: 0 <= i < |ps| ==> ps[i].ty != "string") ==> r == ps
    ensures forall i :: 0 <= i < |ps| && ps[i].ty == "string" && (forall j :: 0 <= j < i ==> ps[j].ty != "string") ==>
      r == ps[i := ps[i].(ty := union)]
  {
    match FirstStringFrom(ps, 0)
    case None => ps
    case Some(i) => ps[i := ps[i].(ty := union)]
  }

  /** The signature after lines 292-334, the enumeration warning, the
      description without its definition block and the parameters. */
  datatype Definition = Definition(code: string, warned: bool, description: seq<Item>, parameters: seq<Param>)

  /** Lines 288-335 for an object whose definition is extracted. */
  function ExtractDefinition(title: string, items: seq<Item>, ps: seq<Param>, enumValues: seq<string>,
                             structTitle: string, isGlobal: bool, ignoreEntries: seq<string>): (r: Result<Definition>)
    ensures r.Err? <==> FirstDefinition(items, title).None?
    ensures r.Ok? ==> var k := FirstDefinition(items, title).value;
      r.value.description == items[..k] + items[k + 1..]
  {
    match FirstDefinition(items, title)
    case None => Err(TypeError("Cannot read property 'value' of undefined"))
    case Some(k) =>
      var code1 := InsertVoid(items[k].text, IgnoreList(ignoreEntries, structTitle));
      var code2 := if isGlobal then DeclareGlobal(code1, title) else code1;
      var applies := EnumApplies(code2, enumValues);
      Ok(Definition(
        ApplyEnum(code2, enumValues),
        EnumWarning(code2, enumValues),
        items[..k] + items[k + 1..],
        if applies then Retyped(ps, EnumUnion(enumValues)) else ps))
  }

  // ---------------------------------------------------------------------
  // The comment (lines 338-367).

  predicate IsDeprecated(it: Item) {
    Contains(it.text, "Deprecated in version") || Contains(it.text, "DeprecatedVersion ")
  }

  /** Lines 338-347: the rendered items that are not deprecation notes. Every
      such item is rendered into the result and nothing else is; without a
      deprecation note every item is kept, in order. KeptConcat gives the
      order in general. */
  function Kept(items: seq<Item>, render: string -> string): (r: seq<string>)
    ensures |r| <= |items|
    ensures forall i :: 0 <= i < |items| && !IsDeprecated(items[i]) ==> render(items[i].html) in r
    ensures forall x :: x in r ==> exists i :: 0 <= i < |items| && !IsDeprecated(items[i]) && render(items[i].html) == x
    ensures (forall i :: 0 <= i < |items| ==> !IsDeprecated(items[i])) ==>
      r == seq(|items|, i requires 0 <= i < |items| => render(items[i].html))
  {
    if items == [] then []
    else (if IsDeprecated(items[0]) then [] else [render(items[0].html)]) + Kept(items[1..], render)
  }

  /** The filter and the map keep the order of the description: what is kept
      of two runs of items is what is kept of each, one after the other. */
  lemma {:induction false} KeptConcat(a: seq<Item>, b: seq<Item>, render: string -> string)
    decreases |a|
    ensures Kept(a + b, render) == Kept(a, render) + Kept(b, render)
  {
    if a == [] {
      assert a + b == b;
    } else {
      assert (a + b)[0] == a[0] && (a + b)[1..] == a[1..] + b;
      KeptConcat(a[1..], b, render);
    }
  }

  /** Lines 349-353: one `@deprecated` line per deprecation note. */
  function DeprecatedNotes(items: seq<Item>, render: string -> string): seq<string>
  {
    if items == [] then []
    else (if IsDeprecated(items[0]) then ["@deprecated " + render(items[0].html)] else []) + DeprecatedNotes(items[1..], render)
  }

  /** There is a note exactly when some item is a deprecation note, and every
      note carries the `@deprecated` tag. */
  lemma {:induction false} DeprecatedNotesFacts(items: seq<Item>, render: string -> string)
    ensures DeprecatedNotes(items, render) == [] <==> forall i :: 0 <= i < |items| ==> !IsDeprecated(items[i])
    ensures forall i :: 0 <= i < |DeprecatedNotes(items, render)| ==> StartsWith(DeprecatedNotes(items, render)[i], "@deprecated ")
  {
    if items != [] {
      DeprecatedNotesFacts(items[1..], render);
      assert forall i :: 1 <= i < |items| ==> items[1..][i - 1] == items[i];
    }
  }

  function ParamLine(p: Param): string {
    "@param {" + p.ty + "} " + p.name + " - " + p.description
  }

  function ParamLines(ps: seq<Param>): seq<string> {
    seq(|ps|, i requires 0 <= i < |ps| => ParamLine(ps[i]))
  }

  function ReturnsLine(r: Returns): string {
    "@returns {" + r.ty + "} " + r.description
  }

  /** A joined list starts with whatever its first part starts with. */
  lemma JoinStartsWith(sep: string, parts: seq<string>, pre: string)
    requires parts != [] && StartsWith(parts[0], pre)
    ensures StartsWith(Join(sep, parts), pre)
  {
    if |parts| > 1 {
      var tail := sep + Join(sep, parts[1..]);
      assert Join(sep, parts) == parts[0] + tail;
      assert (parts[0] + tail)[..|pre|] == parts[0][..|pre|];
    }
  }

  /** Lines 349-356: a blank line and the deprecation notes, when there are any. */
  function DeprecatedSection(items: seq<Item>, render: string -> string): string
  {
    var notes := DeprecatedNotes(items, render);
    if notes != [] then "\n\n" + Join("\n", notes) else ""
  }

  /** The section is empty exactly when no item is a deprecation note, and
      otherwise opens with a blank line and a `@deprecated` tag. */
  lemma DeprecatedSectionFacts(items: seq<Item>, render: string -> string)
    ensures DeprecatedSection(items, render) == "" <==> forall i :: 0 <= i < |items| ==> !IsDeprecated(items[i])
    ensures DeprecatedSection(items, render) != "" ==> StartsWith(DeprecatedSection(items, render), "\n\n@deprecated ")
  {
    var notes := DeprecatedNotes(items, render);
    DeprecatedNotesFacts(items, render);
    if notes != [] {
      var joined := Join("\n", notes);
      JoinStartsWith("\n", notes, "@deprecated ");
      assert ("\n\n" + joined)[..14] == "\n\n" + joined[..12];
    }
  }

  /** Lines 358-360: one `@param` line per parameter. */
  function ParamSection(ps: seq<Param>): (r: string)
    ensures r == "" <==> ps == []
    ensures ps != [] ==> StartsWith(r, "\n@param {")
  {
    if |ps| > 0 then
      var joined := Join("\n", ParamLines(ps));
      assert |ps| == 1 ==> joined == ParamLine(ps[0]);
      assert |ps| > 1 ==> joined == ParamLine(ps[0]) + "\n" + Join("\n", ParamLines(ps)[1..]);
      "\n" + joined
    else ""
  }

  /** Lines 361-363: the `@returns` line only when a return type exists. */
  function ReturnsSection(r: Returns): (s: string)
    ensures s == "" <==> r.ty == ""
    ensures r.ty != "" ==> s == "\n" + ReturnsLine(r)
  {
    if r.ty != "" then "\n" + ReturnsLine(r) else ""
  }

  /** Lines 338-363: prose, then deprecation notes, then parameters, then the
      return value, in this fixed order. */
  function CommentBody(items: seq<Item>, ps: seq<Param>, result: Returns, render: string -> string): string {
    Join("\n\n", Kept(items, render)) + DeprecatedSection(items, render) + ParamSection(ps) + ReturnsSection(result)
  }

  /** Lines 365-367: the obfuscated address is restored and every line gets
      ` * `. */
  function Comment(items: seq<Item>, ps: seq<Param>, result: Returns, render: string -> string): (r: string)
    ensures StripLinePrefix(r, " * ") == Some(ReplaceEmail(CommentBody(items, ps, result, render)))
  {
    var body := ReplaceEmail(CommentBody(items, ps, result, render));
    PrefixLinesRoundTrip(body, " * ");
    PrefixLines(body, " * ")
  }

  // ---------------------------------------------------------------------
  // Interface inference (lines 372-411).

  const Phrase: string := "on the following form:"

  function PhraseFrom(items: seq<Item>, from: nat): (r: Option<nat>)
    decreases |items| - from
    ensures r.Some? ==> from <= r.value < |items| && Contains(items[r.value].text, Phrase)
    ensures r.Some? ==> forall j :: from <= j < r.value ==> !Contains(items[j].text, Phrase)
    ensures r.None? ==> forall j :: from <= j < |items| ==> !Contains(items[j].text, Phrase)
  {
    if from >= |items| then None
    else if Contains(items[from].text, Phrase) then Some(from)
    else PhraseFrom(items, from + 1)
  }

  /** `findIndex(…) + 1`: the item after the first one holding the phrase, or
      the first item when none does (findIndex gives -1). */
  function SampleIndex(items: seq<Item>): (r: nat)
    ensures PhraseFrom(items, 0).Some? ==> r == PhraseFrom(items, 0).value + 1
    ensures PhraseFrom(items, 0).None? ==> r == 0
  {
    match PhraseFrom(items, 0)
    case None => 0
    case Some(i) => i + 1
  }

  /** The replacer of line 401: `typeof`, with `null` read as a string. */
  function TypeName(v: Json): (t: string)
    ensures v.JNull? || v.JStr? ==> t == "string"
    ensures v.JArr? || v.JObj? ==> t == "object"
    ensures v.JNum? ==> t == "number"
    ensures v.JBool? ==> t == "boolean"
  {
    TypeOf(Some(if v.JNull? then JStr("") else v))
  }

  /** The values the replacer sees below the root, in order. */
  function Children(v: Json): seq<Json> {
    match v
    case JObj(fields) => seq(|fields|, i requires 0 <= i < |fields| => fields[i].1)
    case JArr(items) => items
    case _ => []
  }

  function TypeNames(v: Json): (r: seq<string>)
    ensures |r| == |Children(v)|
    ensures forall i :: 0 <= i < |r| ==> r[i] == TypeName(Children(v)[i])
  {
    var cs := Children(v);
    seq(|cs|, i requires 0 <= i < |cs| => TypeName(cs[i]))
  }

  /** Line 402: the distinct names in order of first appearance. */
  function DedupFrom(acc: seq<string>, ns: seq<string>): seq<string>
    decreases |ns|
  {
    if ns == [] then acc else DedupFrom(if ns[0] in acc then acc else acc + [ns[0]], ns[1..])
  }

  function Dedup(ns: seq<string>): seq<string> {
    DedupFrom([], ns)
  }

  predicate Distinct(xs: seq<string>) {
    forall i, j :: 0 <= i < j < |xs| ==> xs[i] != xs[j]
  }

  lemma {:induction false} DedupFromFacts(acc: seq<string>, ns: seq<string>)
    requires Distinct(acc)
    decreases |ns|
    ensures Distinct(DedupFrom(acc, ns))
    ensures forall x :: x in DedupFrom(acc, ns) <==> x in acc || x in ns
  {
    if ns != [] {
      var acc' := if ns[0] in acc then acc else acc + [ns[0]];
      DedupFromFacts(acc', ns[1..]);
      assert forall x :: x in ns <==> x == ns[0] || x in ns[1..];
    }
  }

  /** Line 406: a sample is "mixed" exactly when two of its values have
      different type names. */
  lemma MixedIffTwoTypes(ns: seq<string>)
    ensures |Dedup(ns)| > 1 <==> exists i, j :: 0 <= i < |ns| && 0 <= j < |ns| && ns[i] != ns[j]
  {
    var d := Dedup(ns);
    DedupFromFacts([], ns);
    if |d| > 1 {
      assert d[0] in ns && d[1] in ns && d[0] != d[1];
    }
    if exists i, j :: 0 <= i < |ns| && 0 <= j < |ns| && ns[i] != ns[j] {
      var i, j :| 0 <= i < |ns| && 0 <= j < |ns| && ns[i] != ns[j];
      assert ns[i] in d && ns[j] in d;
      var a :| 0 <= a < |d| && d[a] == ns[i];
      var b :| 0 <= b < |d| && d[b] == ns[j];
      assert a != b;
    }
  }

  /** A key JSON.stringify would escape. */
  predicate NeedsEscape(k: string) {
    exists i :: 0 <= i < |k| && (k[i] == '"' || k[i] == '\\' || k[i] < ' ')
  }

  /** A key the model prints: not escaped, and not the empty key, whose value
      the replacer of lines 399-400 passes through untouched. */
  predicate PlainKey(k: string) {
    k != "" && !NeedsEscape(k)
  }

  /** One line of an interface body, after the unquoting of line 404. */
  function FieldLine(f: (string, Json)): string {
    "\t" + Quote(f.0) + ": " + TypeName(f.1)
  }

  function ItemLine(v: Json): string {
    "\t" + Quote(TypeName(v))
  }

  /** Lines 398-404: the tab-indented stringification of the sample with each
      value replaced by its type name; type names after a colon lose their
      quotes, so object members read `"key": type` while array items stay
      quoted. */
  function InterfaceContent(v: Json): (r: Result<string>)
    ensures v.JObj? && v.fields == [] ==> r == Ok("{}")
    ensures v.JArr? && v.items == [] ==> r == Ok("[]")
    ensures v.JNull? ==> r == Ok("null")
    ensures v.JObj? && (forall i :: 0 <= i < |v.fields| ==> PlainKey(v.fields[i].0)) ==> r.Ok?
    ensures v.JObj? && (exists i :: 0 <= i < |v.fields| && !PlainKey(v.fields[i].0)) ==> r.Err? && r.error.Unsupported?
    ensures v.JNum? || v.JStr? ==> r.Err? && r.error.Unsupported?
  {
    match v
    case JNull => Ok("null")
    case JBool(b) => Ok(if b then "true" else "false")
    case JNum(_) => Err(Unsupported("a number as the whole sample"))
    case JStr(_) => Err(Unsupported("a string as the whole sample"))
    case JArr(items) =>
      if items == [] then Ok("[]")
      else Ok("[\n" + Join(",\n", seq(|items|, i requires 0 <= i < |items| => ItemLine(items[i]))) + "\n]")
    case JObj(fields) =>
      if exists i :: 0 <= i < |fields| && !PlainKey(fields[i].0) then Err(Unsupported("an empty key, or a key JSON.stringify escapes"))
      else if fields == [] then Ok("{}")
      else Ok("{\n" + Join(",\n", seq(|fields|, i requires 0 <= i < |fields| => FieldLine(fields[i]))) + "\n}")
  }

  /** The lines of a list joined with `,\n`: every part but the last ends with a comma. */
  function WithCommas(lines: seq<string>): (r: seq<string>)
    ensures |r| == |lines|
  {
    seq(|lines|, i requires 0 <= i < |lines| => lines[i] + (if i < |lines| - 1 then "," else ""))
  }

  lemma {:induction false} JoinCommas(lines: seq<string>)
    ensures Join(",\n", lines) == Join("\n", WithCommas(lines))
  {
    if |lines| >= 2 {
      JoinCommas(lines[1..]);
      assert WithCommas(lines)[1..] == WithCommas(lines[1..]);
      assert Join(",\n", lines) == lines[0] + "," + "\n" + Join(",\n", lines[1..]);
    }
  }

  lemma {:induction false} JoinFramed(open: string, parts: seq<string>, close: string)
    requires parts != []
    ensures open + "\n" + Join("\n", parts) + "\n" + close == Join("\n", [open] + parts + [close])
    decreases |parts|
  {
    var all := [open] + parts + [close];
    assert all[1..] == parts + [close];
    if |parts| == 1 {
      assert (parts + [close])[1..] == [close];
      assert Join("\n", parts) == parts[0];
      assert Join("\n", parts + [close]) == parts[0] + "\n" + close;
    } else {
      JoinFramed(parts[0], parts[1..], close);
      assert [parts[0]] + parts[1..] + [close] == parts + [close];
    }
  }

  lemma FieldLineNoNewline(f: (string, Json))
    requires !NeedsEscape(f.0)
    ensures '\n' !in FieldLine(f)
  {
    assert forall m :: 0 <= m < |f.0| ==> f.0[m] != '\n';
    assert FieldLine(f) == "\t\"" + f.0 + "\": " + TypeName(f.1);
  }

  function FieldLines(fields: seq<(string, Json)>): (r: seq<string>)
    ensures |r| == |fields| && forall i :: 0 <= i < |fields| ==> r[i] == FieldLine(fields[i])
  {
    seq(|fields|, i requires 0 <= i < |fields| => FieldLine(fields[i]))
  }

  lemma ObjectContent(fields: seq<(string, Json)>)
    requires fields != []
    requires forall i :: 0 <= i < |fields| ==> PlainKey(fields[i].0)
    ensures InterfaceContent(JObj(fields)) == Ok("{\n" + Join(",\n", FieldLines(fields)) + "\n}")
  {
    assert FieldLines(fields) == seq(|fields|, i requires 0 <= i < |fields| => FieldLine(fields[i]));
  }

  /** Lines 398-404 read line by line: an object sample with plain keys
      becomes `{`, one `"key": type` line per field (all but the last ending
      in a comma) and `}`. */
  lemma InterfaceLines(fields: seq<(string, Json)>)
    requires fields != []
    requires forall i :: 0 <= i < |fields| ==> PlainKey(fields[i].0)
    ensures InterfaceContent(JObj(fields)).Ok?
    ensures Split(InterfaceContent(JObj(fields)).value, "\n") == ["{"] + WithCommas(FieldLines(fields)) + ["}"]
  {
    var lines := FieldLines(fields);
    var body := WithCommas(lines);
    var parts := ["{"] + body + ["}"];
    ObjectContent(fields);
    JoinCommas(lines);
    JoinFramed("{", body, "}");
    forall k | 0 <= k < |body| ensures '\n' !in body[k] {
      FieldLineNoNewline(fields[k]);
    }
    forall k | 0 <= k < |parts| ensures '\n' !in parts[k] {
      if 1 <= k <= |body| {
        assert parts[k] == body[k - 1];
      }
    }
    var joined := Join("\n", body);
    assert "{\n" == "{" + "\n" && "\n}" == "\n" + "}";
    assert "{\n" + joined + "\n}" == "{" + "\n" + joined + "\n" + "}";
    SplitJoin(parts, '\n');
  }

  /** `obj.title[0].toUpperCase() + obj.title.substring(1)`. */
  function Capitalize(title: string): (r: Result<string>)
    ensures r.Err? <==> title == ""
    ensures r.Ok? ==> |r.value| == |title| && r.value[0] == UpperChar(title[0]) && r.value[1..] == title[1..]
  {
    if title == "" then Err(TypeError("Cannot read property 'toUpperCase' of undefined"))
    else Ok([UpperChar(title[0])] + title[1..])
  }

  /** The interface a member pushes, with whether its sample is mixed. */
  datatype Inferred = Inferred(iface: Interface, anyType: bool)

  /** Line 376: inference runs only when asked for, after more than one code
      block, and when the comment mentions the phrase. */
  predicate InferenceRuns(checkForInterface: bool, codeLength: nat, comment: string) {
    checkForInterface && codeLength > 1 && Contains(comment, Phrase)
  }

  /** Lines 398-410 once inference runs: the item after the phrase must exist
      and parse, the parsed sample must render, and the title must be
      non-empty for `toUpperCase`; otherwise the interface is built. */
  function InferInterface(title: string, items: seq<Item>, parse: string -> Option<Json>): (r: Result<Inferred>)
    ensures SampleIndex(items) >= |items| ==> r.Err? && r.error.TypeError?
    ensures SampleIndex(items) < |items| && parse(items[SampleIndex(items)].text).None? ==> r.Err? && r.error.ParseError?
    ensures r.Ok? ==> Capitalize(title).Ok? && r.value.iface.name == Capitalize(title).value
    ensures r.Ok? ==> var v := parse(items[SampleIndex(items)].text).value;
      InterfaceContent(v) == Ok(r.value.iface.content) && r.value.anyType == (|Dedup(TypeNames(v))| > 1)
    ensures r.Err? <==>
      SampleIndex(items) >= |items| || parse(items[SampleIndex(items)].text).None? ||
      InterfaceContent(parse(items[SampleIndex(items)].text).value).Err? || title == ""
    ensures SampleIndex(items) < |items| && parse(items[SampleIndex(items)].text).Some? &&
            InterfaceContent(parse(items[SampleIndex(items)].text).value).Err? ==>
      r == Err(InterfaceContent(parse(items[SampleIndex(items)].text).value).error)
  {
    var i := SampleIndex(items);
    if i >= |items| then Err(TypeError("Cannot read property 'value' of undefined"))
    else
      match parse(items[i].text)
      case None => Err(ParseError("the sample after the phrase is not JSON"))
      case Some(v) =>
        var content :- InterfaceContent(v);
        var name :- Capitalize(title);
        Ok(Inferred(Interface(name, content), |Dedup(TypeNames(v))| > 1))
  }

  // ---------------------------------------------------------------------
  // The final signature and text (lines 413-425).

  /** Lines 413-419 for the signature. */
  function FinalSignature(code: string, inferred: Option<Inferred>, structTitle: string): string {
    match inferred
    case Some(inf) =>
      var rep := structTitle + "." + inf.iface.name;
      if inf.anyType then ReplaceWholeWord(code, "any", rep) else ReplaceMapSignature(code, rep)
    case None => ReplaceFirst(code, MapLiteral, IndexSignature)
  }

  /** Line 418 for the comment. */
  function FinalComment(comment: string, inferred: Option<Inferred>): string {
    if inferred.None? then ReplaceAll(comment, MapLiteral, IndexSignature) else comment
  }

  /** Lines 421-425. */
  function Assemble(comment: string, code: string): (r: string)
    ensures StartsWith(r, "/**\n")
  {
    var raw := "/**\n" + comment + "\n */\n" + ArrayRewrite(code, false);
    BoolKeepsPrefix(raw, false);
    assert raw[..4] == "/**\n";
    BoolRewrite(raw, false)
  }

  /** The text is the comment between `/**` and ` */`, then the code: the
      array rewrite touches only the code, and with no `b` and no `]` about,
      neither rewrite changes a thing. */
  lemma AssemblePlain(comment: string, code: string)
    requires 'b' !in comment && 'B' !in comment
    requires 'b' !in code && 'B' !in code && ']' !in code
    ensures Assemble(comment, code) == "/**\n" + comment + "\n */\n" + code
  {
    ArrayNoClose(code, false);
    var raw := "/**\n" + comment + "\n */\n" + code;
    assert forall k :: 0 <= k < |raw| ==> raw[k] != 'b' && raw[k] != 'B' by {
      assert 'b' !in "/**\n" && 'B' !in "/**\n" && 'b' !in "\n */\n" && 'B' !in "\n */\n";
    }
    BoolPlain(raw, false);
  }

  /** Everything processDescription produces. */
  datatype Described = Described(text: string, warned: bool, description: seq<Item>, parameters: seq<Param>, inferred: Option<Inferred>)

  /** Lines 369-425, once the definition is settled and the comment built. */
  function Finish(def: Definition, comment: string, codeLength: nat, title: string, structTitle: string,
                  checkForInterface: bool, env: Env): (r: Result<Described>)
    ensures r.Ok? ==> r.value.description == def.description && r.value.parameters == def.parameters
    ensures r.Ok? ==> StartsWith(r.value.text, "/**\n")
    ensures r.Ok? && r.value.inferred.Some? ==>
      checkForInterface && codeLength > 1 && Capitalize(title) == Ok(r.value.inferred.value.iface.name)
    ensures r.Ok? ==> (r.value.inferred.Some? <==> InferenceRuns(checkForInterface, codeLength, comment))
    ensures r.Ok? && r.value.inferred.Some? ==> InferInterface(title, def.description, env.parse) == Ok(r.value.inferred.value)
    ensures r.Err? <==> InferenceRuns(checkForInterface, codeLength, comment) && InferInterface(title, def.description, env.parse).Err?
  {
    var inferred :- if InferenceRuns(checkForInterface, codeLength, comment)
                    then (var inf :- InferInterface(title, def.description, env.parse); Ok(Some(inf)))
                    else Ok(None);
    Ok(Described(
      Assemble(FinalComment(comment, inferred), FinalSignature(def.code, inferred, structTitle)),
      def.warned, def.description, def.parameters, inferred))
  }

  /** processDescription as a function of what it reads. */
  function Describe(title: string, items: seq<Item>, ps: seq<Param>, result: Returns, enumValues: seq<string>,
                    structTitle: string, isGlobal: bool, opts: Options, env: Env): (r: Result<Described>)
    ensures r.Ok? ==> StartsWith(r.value.text, "/**\n")
    ensures opts.extractDefinition && FirstDefinition(items, title).None? ==> r.Err?
    ensures opts.extractDefinition && r.Ok? ==>
      exists k :: (0 <= k < |items| && DefinesMember(items[k], title) &&
                   (forall j :: 0 <= j < k ==> !DefinesMember(items[j], title)) &&
                   r.value.description == items[..k] + items[k + 1..])
    ensures !opts.extractDefinition && r.Ok? ==>
      r.value.description == items && r.value.parameters == ps && r.value.inferred.None? && !r.value.warned
    ensures r.Ok? ==> r.value.parameters == ps || r.value.parameters == Retyped(ps, EnumUnion(enumValues))
    ensures r.Ok? && enumValues == [] ==> r.value.parameters == ps && !r.value.warned
    ensures r.Ok? && r.value.inferred.Some? ==>
      opts.checkForInterface && opts.extractDefinition && CodeCount(items) > 1 &&
      Capitalize(title) == Ok(r.value.inferred.value.iface.name)
    ensures !opts.extractDefinition ==> r.Ok?
    ensures r.Ok? ==> (r.value.inferred.Some? <==>
      opts.extractDefinition &&
      InferenceRuns(opts.checkForInterface, CodeCount(items), Comment(r.value.description, r.value.parameters, result, env.render)))
    ensures opts.extractDefinition ==>
      var def := ExtractDefinition(title, items, ps, enumValues, structTitle, isGlobal, env.ignoreEntries);
      def.Err? ==> r == Err(def.error)
    ensures opts.extractDefinition ==>
      var def := ExtractDefinition(title, items, ps, enumValues, structTitle, isGlobal, env.ignoreEntries);
      def.Ok? ==>
        (r.Err? <==>
          InferenceRuns(opts.checkForInterface, CodeCount(items),
                        Comment(def.value.description, def.value.parameters, result, env.render)) &&
          InferInterface(title, def.value.description, env.parse).Err?)
  {
    var def :- if opts.extractDefinition
               then ExtractDefinition(title, items, ps, enumValues, structTitle, isGlobal, env.ignoreEntries)
               else Ok(Definition("", false, items, ps));
    Finish(def, Comment(def.description, def.parameters, result, env.render),
           if opts.extractDefinition then CodeCount(items) else 0, title, structTitle,
           opts.checkForInterface, env)
  }

  // ---------------------------------------------------------------------
  // The procedure itself.

  /** Lines 326-333: the loop that retypes the first `string` parameter. */
  method RetypeParameters(obj: Doc, union: string)
    modifies obj`parameters
    ensures obj.parameters == Retyped(old(obj.parameters), union)
  {
    var i := 0;
    while i < |obj.parameters|
      invariant 0 <= i <= |obj.parameters|
      invariant obj.parameters == old(obj.parameters)
      invariant FirstStringFrom(obj.parameters, i) == FirstStringFrom(obj.parameters, 0)
    {
      if obj.parameters[i].ty == "string" {
        obj.parameters := obj.parameters[i := obj.parameters[i].(ty := union)];
        return;
      }
      i := i + 1;
    }
  }

  /** Lines 397-403: the distinct type names, collected in order. */
  method CollectTypes(names: seq<string>) returns (types: seq<string>)
    ensures types == Dedup(names)
  {
    types := [];
    var i := 0;
    while i < |names|
      invariant 0 <= i <= |names|
      invariant DedupFrom(types, names[i..]) == Dedup(names)
    {
      assert names[i..][1..] == names[i + 1..];
      if names[i] !in types {
        types := types + [names[i]];
      }
      i := i + 1;
    }
    assert names[i..] == [];
  }

  /** Lines 288-335 on the object: the definition block leaves the
      description and the parameters are retyped. */
  method TakeDefinition(obj: Doc, structTitle: string, isGlobal: bool, env: Env) returns (r: Result<Definition>)
    modifies obj`description, obj`parameters
    ensures r == ExtractDefinition(old(obj.title), old(obj.description), old(obj.parameters), old(obj.enumValues),
                                   structTitle, isGlobal, env.ignoreEntries)
    ensures r.Ok? ==> obj.description == r.value.description && obj.parameters == r.value.parameters
  {
    var items := obj.description;
    var k := FirstDefinition(items, obj.title);
    if k.None? {
      return Err(TypeError("Cannot read property 'value' of undefined"));
    }
    var code := items[k.value].text;
    obj.description := items[..k.value] + items[k.value + 1..];
    code := InsertVoid(code, IgnoreList(env.ignoreEntries, structTitle));
    if isGlobal {
      code := DeclareGlobal(code, obj.title);
    }
    var warned := false;
    if EnumApplies(code, obj.enumValues) {
      warned := Count(code, ": string") > 1;
      var union := EnumUnion(obj.enumValues);
      code := ReplaceFirst(code, ": string", ": " + union);
      RetypeParameters(obj, union);
    }
    r := Ok(Definition(code, warned, obj.description, obj.parameters));
  }

  /** Lines 398-410: infer the interface. The replacer's type list is
      collected as it goes, and the sample is mixed when it holds two. */
  method InferOn(title: string, items: seq<Item>, env: Env) returns (r: Result<Inferred>)
    ensures r == InferInterface(title, items, env.parse)
  {
    var i := SampleIndex(items);
    if i >= |items| {
      return Err(TypeError("Cannot read property 'value' of undefined"));
    }
    var parsed := env.parse(items[i].text);
    if parsed.None? {
      return Err(ParseError("the sample after the phrase is not JSON"));
    }
    var v := parsed.value;
    var types := CollectTypes(TypeNames(v));
    var content := InterfaceContent(v);
    if content.Err? {
      return Err(content.error);
    }
    var name := Capitalize(title);
    if name.Err? {
      return Err(name.error);
    }
    r := Ok(Inferred(Interface(name.value, content.value), |types| > 1));
  }

  /** processDescription(obj, structure, options): the text and whether the
      enumeration warning was printed, with the description, parameters and
      interface it leaves behind. On success the definition block is gone
      from `obj.description`, the parameters are retyped and at most one
      interface is appended to `structure.interfaces`. */
  method ProcessDescription(obj: Doc, structure: Doc, opts: Options, env: Env) returns (r: Result<Described>)
    modifies obj`description, obj`parameters, structure`interfaces
    ensures r == Describe(old(obj.title), old(obj.description), old(obj.parameters), old(obj.result),
                          old(obj.enumValues), old(structure.title), old(structure.isGlobal), opts, env)
    ensures r.Ok? ==> obj.description == r.value.description && obj.parameters == r.value.parameters
    ensures r.Ok? ==> structure.interfaces == old(structure.interfaces) +
                        (if r.value.inferred.Some? then [r.value.inferred.value.iface] else [])
  {
    var def := Definition("", false, obj.description, obj.parameters);
    var codeLength := 0;
    if opts.extractDefinition {
      codeLength := CodeCount(obj.description);
      var taken := TakeDefinition(obj, structure.title, structure.isGlobal, env);
      if taken.Err? {
        return Err(taken.error);
      }
      def := taken.value;
    }
    var comment := Comment(def.description, def.parameters, obj.result, env.render);
    r := Conclude(obj, def, comment, codeLength, structure, opts, env);
  }

  /** Lines 337-425 on the objects: the definition `def` is settled, and an
      inferred interface goes onto the structure. */
  method Conclude(obj: Doc, def: Definition, comment: string, codeLength: nat, structure: Doc, opts: Options, env: Env)
    returns (r: Result<Described>)
    requires obj.description == def.description && obj.parameters == def.parameters
    modifies structure`interfaces
    ensures r == Finish(def, comment, codeLength, old(obj.title), old(structure.title), opts.checkForInterface, env)
    ensures r.Ok? ==> obj.description == r.value.description && obj.parameters == r.value.parameters
    ensures r.Ok? ==> structure.interfaces == old(structure.interfaces) +
                        (if r.value.inferred.Some? then [r.value.inferred.value.iface] else [])
  {
    var inferred: Option<Inferred> := None;
    if InferenceRuns(opts.checkForInterface, codeLength, comment) {
      var inf := InferOn(obj.title, def.description, env);
      if inf.Err? {
        return Err(inf.error);
      }
      inferred := Some(inf.value);
      structure.interfaces := structure.interfaces + [inf.value.iface];
    }
    r := Ok(Described(
      Assemble(FinalComment(comment, inferred), FinalSignature(def.code, inferred, structure.title)),
      def.warned, def.description, def.parameters, inferred));
  }
}
