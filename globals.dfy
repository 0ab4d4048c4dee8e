/** The globals of globals.js, appended after the emitted structures
    (buildFromTernDefinition.js:199-247): an alias copies the declaration of
    a member out of an emitted structure under a new name; any other global
    gets a generated JSDoc block. */
module Globals {
  import opened Results
  import opened Text
  import opened Patterns
  import D = Descriptions

  /** An entry of globals.js (the format its header comment describes,
      globals.js:1-30). An absent `parameters` is `[]`, an absent `returns`
      has the empty type. */
  datatype Global =
    | Alias(aliasFor: string)
    | Plain(description: string, definition: string, parameters: seq<D.Param>, result: D.Returns)

  /** An identifier the `\b` of a pattern can end on. */
  predicate IsName(s: string) {
    |s| > 0 && forall k :: 0 <= k < |s| ==> IsWordChar(s[k])
  }

  // ---------------------------------------------------------------------
  // Plain globals (lines 221-236).

  /** Lines 222-229: the description, then one `@param` line per parameter,
      then the `@returns` line when the return type is not empty. */
  function PlainDescription(description: string, ps: seq<D.Param>, ret: D.Returns): string {
    description + D.ParamSection(ps) + D.ReturnsSection(ret)
  }

  const PlainOpen: string := "/**\n"

  function PlainClose(definition: string): string {
    "\n */\ndeclare " + definition + "\n"
  }

  /** Lines 231-235: the description as a ` * ` comment above `declare` and
      the definition. Between the delimiters, removing ` * ` from every line
      gives the description back. */
  function PlainDeclaration(description: string, definition: string, ps: seq<D.Param>, ret: D.Returns): (r: string)
    ensures StartsWith(r, PlainOpen) && EndsWith(r, PlainClose(definition))
    ensures |r| >= |PlainOpen| + |PlainClose(definition)|
    ensures StripLinePrefix(r[|PlainOpen|..|r| - |PlainClose(definition)|], " * ")
         == Some(PlainDescription(description, ps, ret))
  {
    var body := PlainDescription(description, ps, ret);
    var comment := PrefixLines(body, " * ");
    PrefixLinesRoundTrip(body, " * ");
    var r := PlainOpen + comment + PlainClose(definition);
    assert r[..|PlainOpen|] == PlainOpen;
    assert r[|r| - |PlainClose(definition)|..] == PlainClose(definition);
    assert r[|PlainOpen|..|r| - |PlainClose(definition)|] == comment;
    r
  }

  // ---------------------------------------------------------------------
  // Alias globals (lines 203-220).

  /** Lines 206-207: the first emitted definition, from `from` on, with a
      line `declare class|interface|function|var name`. */
  function Owner(defs: seq<string>, name: string, from: nat): (r: Option<nat>)
    decreases |defs| - from
    ensures r.Some? ==> from <= r.value < |defs| && Test(defs[r.value], Declares(DeclarationKeywords, name))
    ensures r.Some? ==> forall k :: from <= k < r.value ==> !Test(defs[k], Declares(DeclarationKeywords, name))
    ensures r.None? ==> forall k :: from <= k < |defs| ==> !Test(defs[k], Declares(DeclarationKeywords, name))
  {
    if from >= |defs| then None
    else if Test(defs[from], Declares(DeclarationKeywords, name)) then Some(from)
    else Owner(defs, name, from + 1)
  }

  /** Line 209: the owner declares a class, an interface, or a variable
      whose declaration line has a `:` and ends in `{`. */
  predicate IsContainer(def: string, m: Match)
    requires m.at + m.len <= |def|
  {
    var line := def[m.at..m.at + m.len];
    m.keyword == "class" || m.keyword == "interface"
    || (m.keyword == "var" && Contains(line, ":") && EndsWith(line, "{"))
  }

  /** Line 212: the first chunk with a line that starts with the member. */
  function MemberChunk(chunks: seq<string>, member: string): (r: Option<string>)
    ensures r.Some? ==> r.value in chunks && Test(r.value, Member(member))
    ensures r.Some? ==> exists k ::
      0 <= k < |chunks| && chunks[k] == r.value && forall j :: 0 <= j < k ==> !Test(chunks[j], Member(member))
    ensures r.None? ==> forall c :: c in chunks ==> !Test(c, Member(member))
  {
    if chunks == [] then None
    else if Test(chunks[0], Member(member)) then Some(chunks[0])
    else
      var r := MemberChunk(chunks[1..], member);
      assert r.Some? ==> exists k ::
        1 <= k < |chunks| && chunks[k] == r.value && forall j :: 0 <= j < k ==> !Test(chunks[j], Member(member)) by {
        if r.Some? {
          var k :| 0 <= k < |chunks[1..]| && chunks[1..][k] == r.value &&
            forall j :: 0 <= j < k ==> !Test(chunks[1..][j], Member(member));
          assert forall j :: 1 <= j < k + 1 ==> chunks[j] == chunks[1..][j - 1];
        }
      }
      r
  }

  /** Lines 211-213: the owner without indentation, cut where every doc comment opens; the
      member's chunk gets its opener back. Without such a chunk the template
      renders `undefined`. */
  function MemberBlock(def: string, member: string): string {
    var chunks := Split(StripIndent(def, true), "/**");
    "/**" + match MemberChunk(chunks, member) case Some(c) => c case None => "undefined"
  }

  /** Line 214: the first `static ` that starts a line is dropped. */
  function Unstatic(block: string): string {
    match FirstMatch(block, Static)
    case None => block
    case Some(m) => Splice(block, m, "")
  }

  /** Line 215: the member is a function when a line starts with it and a
      parameter list. */
  predicate IsFunction(block: string, member: string) {
    Test(block, Call(member))
  }

  /** Line 216: the first line that starts with the member becomes its
      declaration. */
  function DeclareMember(block: string, member: string): string {
    var kw := if IsFunction(block, member) then "function" else "var";
    match FirstMatch(block, Word(member))
    case None => block
    case Some(m) => Splice(block, m, "declare " + kw + " " + member)
  }

  const FunctionOrVar: seq<string> := ["function", "var"]

  /** Line 219: the first `declare function|var name` declares `key` instead. */
  function Rename(def: string, name: string, key: string): string {
    match FirstMatch(def, Declares(FunctionOrVar, name))
    case None => def
    case Some(m) => Splice(def, m, "declare " + m.keyword + " " + key)
  }

  /** Lines 203-220: `aliasFor` is `Owner.member` or a plain name. Without an
      owner the lookup is `undefined` and `.match` on it throws. */
  function AliasDefinition(key: string, aliasFor: string, defs: seq<string>): Result<string> {
    var parts := Split(aliasFor, ".");
    var member := if |parts| > 1 then parts[1] else "undefined";
    var name := if |parts| > 1 && parts[1] != "" then parts[1] else parts[0];
    match Owner(defs, parts[0], 0)
    case None => Err(TypeError("Cannot read property 'match' of undefined"))
    case Some(o) =>
      var def := defs[o];
      match FirstMatch(def, DeclarationLine)
      case None => Err(TypeError("Cannot read property '1' of null"))
      case Some(m) =>
        var extracted := if IsContainer(def, m) then DeclareMember(Unstatic(MemberBlock(def, member)), member) else def;
        Ok(Rename(extracted, name, key))
  }

  /** One iteration of the loop at lines 201-237. */
  function ProcessGlobal(key: string, g: Global, defs: seq<string>): Result<string> {
    match g
    case Alias(aliasFor) => AliasDefinition(key, aliasFor, defs)
    case Plain(description, definition, ps, ret) => Ok(PlainDeclaration(description, definition, ps, ret))
  }

  // ---------------------------------------------------------------------
  // Facts about aliases.

  /** At a line that declares `name`, the declaration-line pattern matches
      too, unless `name` runs into a new line. */
  lemma DeclarationLineAt(def: string, i: nat, name: string)
    requires MatchAt(def, i, Declares(DeclarationKeywords, name)).Some?
    requires '\n' !in name
    ensures MatchAt(def, i, DeclarationLine).Some?
  {
    var k := KeywordAt(def, i, DeclarationKeywords).value;
    var head := "declare " + k + " ";
    var lit := head + name;
    var j := i + |head|;
    assert def[i..i + |lit|] == lit;
    if |name| > 0 {
      assert def[j] == lit[|head|] == name[0];
    } else {
      assert def[j - 1] == lit[|head| - 1] == ' ';
    }
  }

  /** The owner is found exactly when some emitted definition declares the
      first part of `aliasFor`, and then the alias does not throw. */
  lemma AliasFailsIffNoOwner(key: string, aliasFor: string, defs: seq<string>)
    requires '\n' !in Split(aliasFor, ".")[0]
    ensures var first := Split(aliasFor, ".")[0];
      AliasDefinition(key, aliasFor, defs).Err?
      <==> forall k :: 0 <= k < |defs| ==> !Test(defs[k], Declares(DeclarationKeywords, first))
  {
    var first := Split(aliasFor, ".")[0];
    var o := Owner(defs, first, 0);
    if o.Some? {
      var def := defs[o.value];
      var m := FirstMatch(def, Declares(DeclarationKeywords, first)).value;
      DeclarationLineAt(def, m.at, first);
      assert FirstMatch(def, DeclarationLine).Some?;
    }
  }

  /** Text opening with `declare kw ` has `kw` as its keyword. */
  lemma KeywordOfDeclaration(r: string, at: nat, kw: string, rest: string)
    requires kw in FunctionOrVar && OccursAt(r, "declare " + kw + " " + rest, at)
    ensures KeywordAt(r, at, FunctionOrVar) == Some(kw)
  {
    var head := "declare " + kw + " ";
    assert r[at..at + |head|] == (head + rest)[..|head|] == head;
    if kw == "var" {
      assert r[at + 8] == head[8] == 'v';
      if OccursAt(r, "declare function ", at) { assert r[at + 8] == "declare function "[8]; }
    }
  }

  /** A line-start match followed by a non-word character may be replaced by
      a declaration of `kw name`, which then matches at the same place. */
  lemma SpliceDeclares(s: string, m: Match, kw: string, name: string)
    requires m.at + m.len <= |s| && LineStart(s, m.at)
    requires m.at + m.len == |s| || !IsWordChar(s[m.at + m.len])
    requires kw in FunctionOrVar && IsName(name)
    ensures var rep := "declare " + kw + " " + name;
      MatchAt(Splice(s, m, rep), m.at, Declares(FunctionOrVar, name)) == Some(Match(m.at, |rep|, kw))
  {
    var rep := "declare " + kw + " " + name;
    var r := Splice(s, m, rep);
    assert OccursAt(r, rep, m.at);
    assert LineStart(r, m.at) by {
      if m.at > 0 { assert r[m.at - 1] == r[..m.at][m.at - 1] == s[..m.at][m.at - 1] == s[m.at - 1]; }
    }
    KeywordOfDeclaration(r, m.at, kw, name);
    var e := m.at + |rep|;
    assert r[e - 1] == rep[|rep| - 1] == name[|name| - 1];
    if e < |r| {
      assert r[e] == r[e..][0] == s[m.at + m.len..][0] == s[m.at + m.len];
    }
    assert WordBoundary(r, e);
  }

  /** Line 219: when a `declare function|var name` line exists, the result
      declares `key` instead; otherwise the definition is unchanged. */
  lemma RenameDeclaresKey(def: string, name: string, key: string)
    requires IsName(name) && IsName(key)
    ensures Test(def, Declares(FunctionOrVar, name)) ==> Test(Rename(def, name, key), Declares(FunctionOrVar, key))
    ensures !Test(def, Declares(FunctionOrVar, name)) ==> Rename(def, name, key) == def
  {
    var f := FirstMatch(def, Declares(FunctionOrVar, name));
    if f.Some? {
      var m := f.value;
      var k := KeywordAt(def, m.at, FunctionOrVar).value;
      assert m.keyword == k && m.len == |"declare " + k + " " + name|;
      var e := m.at + m.len;
      assert def[e - 1] == name[|name| - 1] by {
        var lit := "declare " + k + " " + name;
        assert def[m.at..e] == lit;
        assert lit[|lit| - 1] == name[|name| - 1];
        assert def[e - 1] == def[m.at..e][|lit| - 1];
      }
      SpliceDeclares(def, m, k, key);
      MatchTests(Rename(def, name, key), Declares(FunctionOrVar, key), m.at);
    }
  }

  /** Line 216: a member found at the start of a line is declared as a
      function exactly when it has a parameter list, and as a variable
      otherwise. */
  lemma MemberDeclared(block: string, member: string)
    requires IsName(member) && Test(block, Word(member))
    ensures var m := FirstMatch(block, Word(member)).value;
      var kw := if IsFunction(block, member) then "function" else "var";
      MatchAt(DeclareMember(block, member), m.at, Declares(FunctionOrVar, member))
        == Some(Match(m.at, |"declare " + kw + " " + member|, kw))
  {
    var m := FirstMatch(block, Word(member)).value;
    var kw := if IsFunction(block, member) then "function" else "var";
    var e := m.at + m.len;
    assert block[m.at..e] == member;
    assert block[e - 1] == member[|member| - 1];
    SpliceDeclares(block, m, kw, member);
  }

  /** Lines 209-219: an alias for a member of a class, an interface or an
      object variable whose line was found in the owner declares the alias
      key, as a function or a variable. */
  lemma AliasDeclaresKey(key: string, aliasFor: string, defs: seq<string>)
    requires var parts := Split(aliasFor, ".");
      |parts| > 1 && IsName(parts[1]) && IsName(key) && Owner(defs, parts[0], 0).Some?
    requires var parts := Split(aliasFor, ".");
      var def := defs[Owner(defs, parts[0], 0).value];
      FirstMatch(def, DeclarationLine).Some? && IsContainer(def, FirstMatch(def, DeclarationLine).value)
      && Test(Unstatic(MemberBlock(def, parts[1])), Word(parts[1]))
    ensures AliasDefinition(key, aliasFor, defs).Ok?
    ensures Test(AliasDefinition(key, aliasFor, defs).value, Declares(FunctionOrVar, key))
  {
    var parts := Split(aliasFor, ".");
    var member := parts[1];
    var def := defs[Owner(defs, parts[0], 0).value];
    var block := Unstatic(MemberBlock(def, member));
    MemberDeclared(block, member);
    var m := FirstMatch(block, Word(member)).value;
    MatchTests(DeclareMember(block, member), Declares(FunctionOrVar, member), m.at);
    RenameDeclaresKey(DeclareMember(block, member), member, key);
  }

  // ---------------------------------------------------------------------
  // The loop over all globals (lines 201-239).

  /** The values of `rs`, or the first error among them. */
  function AllOk(rs: seq<Result<string>>): Result<seq<string>>
    decreases |rs|
  {
    if rs == [] then Ok([])
    else
      var head :- rs[0];
      var tail :- AllOk(rs[1..]);
      Ok([head] + tail)
  }

  lemma {:induction false} AllOkValues(rs: seq<Result<string>>, texts: seq<string>)
    requires |texts| == |rs| && forall k :: 0 <= k < |rs| ==> rs[k] == Ok(texts[k])
    ensures AllOk(rs) == Ok(texts)
  {
    if rs != [] {
      AllOkValues(rs[1..], texts[1..]);
      assert texts == [texts[0]] + texts[1..];
    }
  }

  lemma {:induction false} AllOkFirstError(rs: seq<Result<string>>, i: nat, e: Failure)
    requires i < |rs| && rs[i] == Err(e) && forall k :: 0 <= k < i ==> rs[k].Ok?
    ensures AllOk(rs) == Err(e)
  {
    if i > 0 {
      AllOkFirstError(rs[1..], i - 1, e);
    }
  }

  /** Each global processed against the definitions, in order: the list of
      outcomes that ProcessAll and the loop of AddGlobals both walk. */
  function Processed(globals: seq<(string, Global)>, defs: seq<string>): (rs: seq<Result<string>>)
    ensures |rs| == |globals| && forall k :: 0 <= k < |globals| ==> rs[k] == ProcessGlobal(globals[k].0, globals[k].1, defs)
  {
    seq(|globals|, k requires 0 <= k < |globals| => ProcessGlobal(globals[k].0, globals[k].1, defs))
  }

  /** Every global is processed against the emitted structures alone; the
      first one that throws ends the run. */
  function ProcessAll(globals: seq<(string, Global)>, defs: seq<string>): Result<seq<string>> {
    AllOk(Processed(globals, defs))
  }

  /** Lines 198-239 as written: the processed globals are collected in a
      list and appended to the definitions after the loop. */
  method AddGlobals(defs: seq<string>, globals: seq<(string, Global)>) returns (r: Result<seq<string>>)
    ensures ProcessAll(globals, defs).Ok? ==> r == Ok(defs + ProcessAll(globals, defs).value)
    ensures ProcessAll(globals, defs).Err? ==> r == Err(ProcessAll(globals, defs).error)
  {
    var processed: seq<string> := [];
    ghost var rs := Processed(globals, defs);
    for i := 0 to |globals|
      invariant |processed| == i
      invariant forall k :: 0 <= k < i ==> rs[k] == Ok(processed[k])
    {
      var text := ProcessGlobal(globals[i].0, globals[i].1, defs);
      assert text == rs[i];
      if text.Err? {
        AllOkFirstError(rs, i, text.error);
        return Err(text.error);
      }
      ghost var before := processed;
      processed := processed + [text.value];
      forall k | 0 <= k < i + 1 ensures rs[k] == Ok(processed[k]) {
        if k < i { assert processed[k] == before[k]; }
      }
    }
    AllOkValues(rs, processed);
    r := Ok(defs + processed);
  }

  /** Line 245: the template, then every definition, three blank lines
      apart. */
  function Contents(template: string, defs: seq<string>): (r: string)
    ensures StartsWith(r, template + "\n")
  {
    var joined := Join("\n\n\n", defs);
    assert (template + "\n" + joined)[..|template| + 1] == template + "\n";
    template + "\n" + joined
  }

  /** The file grows one definition at a time: no definition leaves the
      template and a line break, the first follows it directly, and each
      later one comes three line breaks after the one before. */
  lemma ContentsGrows(template: string, defs: seq<string>, d: string)
    ensures Contents(template, []) == template + "\n"
    ensures Contents(template, [d]) == template + "\n" + d
    ensures defs != [] ==> Contents(template, defs + [d]) == Contents(template, defs) + "\n\n\n" + d
  {
    if defs != [] {
      JoinSnoc("\n\n\n", defs, d);
    }
  }
}
