/** The symbol-table builder of buildFromTernDefinition.js (lines 57-107): the
    raw Tern definition object becomes a table of top-level symbols, each with
    a kind, its own definition string and `properties` / `functions` member
    tables; the global index entries and the `!define` overlay are merged in
    afterwards. */
module TernSymbols {
  import opened Results
  import opened Text
  import opened Js

  /** The key of the long documentation (line 4). */
  const LongDocKey: string := "!scriptable.description"

  datatype Member = Member(shortDoc: Option<Json>, longDoc: Option<Json>, url: Option<Json>, definition: string)

  datatype Members = Members(properties: map<string, Member>, functions: map<string, Member>)

  const NoMembers := Members(map[], map[])

  /** `members` is `None` for a global from the index entries, whose record has
      no `properties` / `functions` objects at all. */
  datatype Symbol = Symbol(
    kind: string,
    shortDoc: Option<Json>,
    longDoc: Option<Json>,
    url: Option<Json>,
    definition: string,
    members: Option<Members>)

  type Table = map<string, Symbol>

  /** Line 57: which top-level keys become symbols. */
  predicate IsSymbolKey(k: string) {
    k != "define" && k != "details" && !StartsWith(k, "!")
  }

  /** Line 74: keys of a symbol that never become members. */
  predicate IsMetaKey(k: string) {
    Contains(k, "!doc") || Contains(k, "!url") || Contains(k, "!type") || k == LongDocKey
  }

  /** `(data["!type"] || "")`, on which `.replace` (line 68) or `.includes`
      (lines 75 and 100) is called next: a truthy number, boolean or object
      has neither method and throws; an array has `.includes` but is not
      represented as a definition. */
  function TypeText(data: Json): (r: Result<string>)
    ensures data.JNull? ==> r.Err?
    ensures data.JObj? && Lookup(data.fields, "!type").None? ==> r == Ok("")
    ensures data.JObj? && Lookup(data.fields, "!type") == Some(JStr("")) ==> r == Ok("")
    ensures forall s :: data.JObj? && Lookup(data.fields, "!type") == Some(JStr(s)) ==> r == Ok(s)
    ensures data.JObj? && TruthyOpt(Lookup(data.fields, "!type")) && !Lookup(data.fields, "!type").value.JStr? ==>
      r.Err? && (r.error.TypeError? <==> !Lookup(data.fields, "!type").value.JArr?)
  {
    var t :- Get(data, "!type");
    if !TruthyOpt(t) then Ok("")
    else if t.value.JStr? then Ok(t.value.s)
    else if t.value.JArr? then Err(Unsupported("!type is an array"))
    else Err(TypeError("!type has no string methods"))
  }

  /** Line 64: "class" when the first character equals its upper-case form. */
  function Kind(name: string): (r: Result<string>)
    ensures r.Err? <==> name == ""
    ensures r.Ok? ==> (r.value == "class" <==> UpperChar(name[0]) == name[0])
    ensures r.Ok? ==> (r.value == "var" <==> UpperChar(name[0]) != name[0])
  {
    if name == [] then Err(TypeError("Cannot read property 'toUpperCase' of undefined"))
    else if name[0] == UpperChar(name[0]) then Ok("class") else Ok("var")
  }

  /** ` -> +` at `i`, followed by no line terminator up to the end. */
  predicate ReturnTailAt(s: string, i: nat) {
    OccursAt(s, " -> +", i) && forall k :: i + 5 <= k < |s| ==> !IsLineTerminator(s[k])
  }

  function ReturnTailFrom(s: string, from: nat): (r: Option<nat>)
    decreases |s| - from
    ensures r.Some? ==> from <= r.value && ReturnTailAt(s, r.value)
    ensures r.Some? ==> forall j: nat :: from <= j < r.value ==> !ReturnTailAt(s, j)
    ensures r.None? ==> forall j: nat :: from <= j ==> !ReturnTailAt(s, j)
  {
    if from + 5 > |s| then None
    else if ReturnTailAt(s, from) then Some(from)
    else ReturnTailFrom(s, from + 1)
  }

  /** `.replace(/ -> \+.*$/, "")`: the result is a prefix of `s`; when it is
      shorter, what was cut is the leftmost ` -> +` that runs to the end of
      the string on a single line. */
  function StripReturnTail(s: string): (r: string)
    ensures |r| <= |s| && r == s[..|r|]
    ensures r == s <==> forall j: nat :: !ReturnTailAt(s, j)
    ensures r != s ==> ReturnTailAt(s, |r|) && forall j: nat :: j < |r| ==> !ReturnTailAt(s, j)
  {
    match ReturnTailFrom(s, 0)
    case None => s
    case Some(i) => s[..i]
  }

  /** Line 68: the symbol's own definition. */
  function OwnDefinition(typeText: string): string {
    StripReturnTail(ReplaceFirst(typeText, "fn", "constructor"))
  }

  /** Lines 76-79 and 101-104: the member record. */
  function MemberOf(data: Json): (r: Result<Member>)
    ensures r.Ok? <==> TypeText(data).Ok?
    ensures r.Ok? ==> r.value.definition == TypeText(data).value
  {
    var t :- TypeText(data);
    Ok(Member(Field(data, "!doc"), Field(data, LongDocKey), Field(data, "!url"), t))
  }

  /** Lines 75 and 100: a member whose type mentions `fn` is a function. */
  function Place(ms: Members, key: string, m: Member): Members {
    if Contains(m.definition, "fn") then ms.(functions := ms.functions[key := m])
    else ms.(properties := ms.properties[key := m])
  }

  /** One iteration of the member loops (lines 73-81 with `skipMeta`, 99-106 without). */
  function AddMemberEntry(acc: Result<Members>, e: (string, Json), skipMeta: bool): Result<Members> {
    match acc
    case Err(_) => acc
    case Ok(ms) =>
      if skipMeta && IsMetaKey(e.0) then acc
      else
        match MemberOf(e.1)
        case Err(f) => Err(f)
        case Ok(m) => Ok(Place(ms, e.0, m))
  }

  /** The member loop as a fold over the entries in order. */
  function CollectMembers(acc: Result<Members>, es: seq<(string, Json)>, skipMeta: bool): Result<Members>
    decreases |es|
  {
    if es == [] then acc else CollectMembers(AddMemberEntry(acc, es[0], skipMeta), es[1..], skipMeta)
  }

  /** Lines 63-71: the symbol record before its members are added. */
  function SymbolHead(name: string, data: Json): Result<Symbol> {
    var kind :- Kind(name);
    var t :- TypeText(data);
    Ok(Symbol(kind, Field(data, "!doc"), Field(data, LongDocKey), Field(data, "!url"), OwnDefinition(t), Some(NoMembers)))
  }

  /** Lines 62-82 for one symbol: its kind follows the case of the first
      character, its definition is the type with `fn` turned into
      `constructor` and the return tail cut, and its members are the non-meta
      entries of its data. */
  function SymbolOf(name: string, data: Json): (r: Result<Symbol>)
    ensures r.Ok? ==>
      name != "" &&
      (r.value.kind == "class" <==> UpperChar(name[0]) == name[0]) &&
      (r.value.kind == "var" <==> UpperChar(name[0]) != name[0])
    ensures r.Ok? ==> TypeText(data).Ok? && r.value.definition == OwnDefinition(TypeText(data).value)
    ensures r.Ok? ==>
      Entries(data).Ok? && r.value.members.Some? &&
      CollectMembers(Ok(NoMembers), Entries(data).value, true) == Ok(r.value.members.value)
  {
    var head :- SymbolHead(name, data);
    var ms :- CollectMembers(Ok(NoMembers), Entries(data).value, true);
    Ok(head.(members := Some(ms)))
  }

  function AddTopLevelEntry(acc: Result<Table>, e: (string, Json)): Result<Table> {
    match acc
    case Err(_) => acc
    case Ok(t) =>
      if !IsSymbolKey(e.0) then acc
      else
        match SymbolOf(e.0, e.1)
        case Err(f) => Err(f)
        case Ok(s) => Ok(t[e.0 := s])
  }

  /** Lines 57-82: the filtered top-level entries folded into the table. */
  function AddTopLevel(acc: Result<Table>, es: seq<(string, Json)>): Result<Table>
    decreases |es|
  {
    if es == [] then acc else AddTopLevel(AddTopLevelEntry(acc, es[0]), es[1..])
  }

  /** A detail `i` with `i.id === id`; reading `id` from `null` throws. */
  predicate HasId(d: Json, id: Option<Json>) {
    !d.JNull? && StrictEquals(Field(d, "id"), id)
  }

  /** The scan of `find` from position `from`: the index of the first detail
      with the id, or a TypeError at a `null` detail found before it. */
  function DetailFrom(details: seq<Json>, id: Option<Json>, from: nat): (r: Result<Option<nat>>)
    requires from <= |details|
    decreases |details| - from
    ensures r.Ok? && r.value.Some? ==>
      from <= r.value.value < |details| && HasId(details[r.value.value], id) &&
      forall j :: from <= j < r.value.value ==> !HasId(details[j], id)
    ensures r.Ok? && r.value.None? ==> forall j :: from <= j < |details| ==> !HasId(details[j], id)
    ensures r.Err? <==> exists k ::
      from <= k < |details| && details[k].JNull? && forall j :: from <= j < k ==> !HasId(details[j], id)
  {
    if from == |details| then Ok(None)
    else
      var own :- Get(details[from], "id");
      if StrictEquals(own, id) then Ok(Some(from)) else DetailFrom(details, id, from + 1)
  }

  /** `details.find((i) => i.id === pageEntryId)` (line 86): the first detail
      whose `id` is strictly equal, `undefined` when there is none, and a
      TypeError when a `null` detail comes before any such one. */
  function FindDetail(details: seq<Json>, id: Option<Json>): (r: Result<Option<Json>>)
    ensures r.Ok? && r.value.Some? ==> r.value.value in details
    ensures r.Ok? && r.value.Some? ==> exists k ::
      0 <= k < |details| && details[k] == r.value.value && HasId(details[k], id) &&
      forall j :: 0 <= j < k ==> !HasId(details[j], id)
    ensures r.Ok? && r.value.None? ==> forall j :: 0 <= j < |details| ==> !HasId(details[j], id)
    ensures r.Err? <==> exists k ::
      0 <= k < |details| && details[k].JNull? && forall j :: 0 <= j < k ==> !HasId(details[j], id)
  {
    var k :- DetailFrom(details, id, 0);
    if k.None? then Ok(None) else Ok(Some(details[k.value]))
  }

  /** `x || ""` for a definition read from the details; a truthy non-string is not represented. */
  function TextOr(v: Option<Json>): Result<string> {
    if !TruthyOpt(v) then Ok("")
    else if v.value.JStr? then Ok(v.value.s)
    else Err(Unsupported("definition is not a string"))
  }

  /** Line 86: `details.find((i) => i.id === entry.pageEntryId)`. On an empty
      list the callback never runs, so `entry.pageEntryId` is not read. */
  function LookupDetail(entry: Json, items: seq<Json>): Result<Option<Json>> {
    var id :- (if items == [] then Ok(None) else Get(entry, "pageEntryId"));
    FindDetail(items, id)
  }

  /** Lines 86-93: one global from the index entries. */
  function IndexSymbol(entry: Json, details: Option<Json>): (r: Result<(string, Symbol)>)
    ensures r.Ok? ==> r.value.1.members.None?
    ensures r.Ok? ==> |r.value.1.kind| > 0 ==> forall k :: 0 <= k < |r.value.1.kind| ==> !('A' <= r.value.1.kind[k] <= 'Z')
    ensures !(details.Some? && details.value.JArr?) ==> r.Err? && r.error.TypeError?
    ensures r.Ok? ==> Field(entry, "title") == Some(JStr(r.value.0))
    ensures r.Ok? ==> r.value.1.shortDoc == Field(entry, "summary")
    ensures details.Some? && details.value.JArr? && LookupDetail(entry, details.value.items).Err? ==>
      r == Err(LookupDetail(entry, details.value.items).error)
    ensures details.Some? && details.value.JArr? && LookupDetail(entry, details.value.items) == Ok(None) ==>
      r.Err? && r.error.TypeError?
    ensures r.Ok? ==>
      details.Some? && details.value.JArr? && LookupDetail(entry, details.value.items).Ok? &&
      LookupDetail(entry, details.value.items).value.Some? &&
      var d := LookupDetail(entry, details.value.items).value.value;
      Field(d, "headline").Some? && Field(d, "headline").value.JStr? &&
      r.value.1.kind == LowerString(Field(d, "headline").value.s) &&
      r.value.1.longDoc == Field(d, "description") && r.value.1.url == Field(d, "url") &&
      TextOr(Field(d, "decleration")) == Ok(r.value.1.definition)
    ensures details.Some? && details.value.JArr? && LookupDetail(entry, details.value.items).Ok? &&
            LookupDetail(entry, details.value.items).value.Some? ==>
      var d := LookupDetail(entry, details.value.items).value.value;
      (Field(d, "headline").Some? && Field(d, "headline").value.JStr? &&
       Field(entry, "title").Some? && Field(entry, "title").value.JStr? &&
       TextOr(Field(d, "decleration")).Ok?) ==> r.Ok?
  {
    if !(details.Some? && details.value.JArr?) then Err(TypeError("details.find is not a function"))
    else
      var d :- LookupDetail(entry, details.value.items);
      if d.None? then Err(TypeError("Cannot read property 'headline' of undefined"))
      else
        var detail := d.value;
        // the found detail is not `null` (HasId), so reading from it cannot throw
        var headline := Field(detail, "headline");
        if !(headline.Some? && headline.value.JStr?) then Err(TypeError("headline.toLowerCase is not a function"))
        else if entry.JNull? then Err(TypeError("Cannot read property 'title' of null"))
        else
          var title := Field(entry, "title");
          if !(title.Some? && title.value.JStr?) then Err(Unsupported("title is not a string"))
          else
            var definition :- TextOr(Field(detail, "decleration"));
            Ok((title.value.s, Symbol(LowerString(headline.value.s), Field(entry, "summary"),
                                      Field(detail, "description"), Field(detail, "url"), definition, None)))
  }

  function AddIndexEntry(acc: Result<Table>, entry: Json, details: Option<Json>): Result<Table> {
    match acc
    case Err(_) => acc
    case Ok(t) =>
      match IndexSymbol(entry, details)
      case Err(f) => Err(f)
      case Ok(p) => Ok(t[p.0 := p.1])
  }

  /** Lines 85-94. */
  function AddIndexEntries(acc: Result<Table>, entries: seq<Json>, details: Option<Json>): Result<Table>
    decreases |entries|
  {
    if entries == [] then acc else AddIndexEntries(AddIndexEntry(acc, entries[0], details), entries[1..], details)
  }

  /** One symbol of the `!define` overlay (lines 98-106): a symbol with no
      extra members is never looked up, otherwise it must exist and own member
      tables. Meta keys are not filtered here. */
  function AddOverlayEntry(acc: Result<Table>, e: (string, Json)): Result<Table> {
    match acc
    case Err(_) => acc
    case Ok(t) =>
      match Entries(e.1)
      case Err(f) => Err(f)
      case Ok(props) =>
        if props == [] then acc
        else if e.0 !in t || t[e.0].members.None? then
          Err(TypeError("Cannot set property of undefined"))
        else
          match CollectMembers(Ok(t[e.0].members.value), props, false)
          case Err(f) => Err(f)
          case Ok(ms) => Ok(t[e.0 := t[e.0].(members := Some(ms))])
  }

  function ApplyOverlay(acc: Result<Table>, es: seq<(string, Json)>): Result<Table>
    decreases |es|
  {
    if es == [] then acc else ApplyOverlay(AddOverlayEntry(acc, es[0]), es[1..])
  }

  function OverlayEntries(doc: Json): Result<seq<(string, Json)>> {
    var d :- Get(doc, "!define");
    if d.None? then Err(TypeError("Cannot convert undefined or null to object")) else Entries(d.value)
  }

  /** Lines 57-107 as one function of the parsed document. */
  function SymbolTable(doc: Json): Result<Table> {
    var es :- Entries(doc);
    var t1 :- AddTopLevel(Ok(map[]), es);
    var entries :- Iterate(Field(doc, "indexEntries"));
    var t2 :- AddIndexEntries(Ok(t1), entries, Field(doc, "details"));
    var overlay :- OverlayEntries(doc);
    ApplyOverlay(Ok(t2), overlay)
  }

  // ---------------------------------------------------------------------
  // The builder as the source writes it: nested loops filling the table.

  lemma CollectErr(f: Failure, es: seq<(string, Json)>, skipMeta: bool)
    ensures CollectMembers(Err(f), es, skipMeta) == Err(f)
  {
  }

  lemma CollectOkFromOk(acc: Result<Members>, es: seq<(string, Json)>, skipMeta: bool)
    decreases |es|
    ensures CollectMembers(acc, es, skipMeta).Ok? ==> acc.Ok?
  {
    if es != [] {
      CollectOkFromOk(AddMemberEntry(acc, es[0], skipMeta), es[1..], skipMeta);
    }
  }

  lemma TopLevelErr(f: Failure, es: seq<(string, Json)>)
    ensures AddTopLevel(Err(f), es) == Err(f)
  {
  }

  lemma IndexErr(f: Failure, es: seq<Json>, details: Option<Json>)
    ensures AddIndexEntries(Err(f), es, details) == Err(f)
  {
  }

  /** The globals the index entries build, in order; the first entry that
      throws ends the run. */
  function IndexPairs(es: seq<Json>, details: Option<Json>): (r: Result<seq<(string, Symbol)>>)
    decreases |es|
    ensures r.Ok? ==> |r.value| == |es| && forall i :: 0 <= i < |es| ==> IndexSymbol(es[i], details) == Ok(r.value[i])
    ensures r.Err? ==> exists i :: 0 <= i < |es| && IndexSymbol(es[i], details) == Err(r.error)
  {
    if es == [] then Ok([])
    else
      var p :- IndexSymbol(es[0], details);
      var rest :- IndexPairs(es[1..], details);
      assert forall i :: 1 <= i < |es| ==> es[i] == es[1..][i - 1];
      Ok([p] + rest)
  }

  /** Line 87 once per pair: `table[title] = symbol`. */
  function StorePairs(t: Table, ps: seq<(string, Symbol)>): Table
    decreases |ps|
  {
    if ps == [] then t else StorePairs(t[ps[0].0 := ps[0].1], ps[1..])
  }

  /** The index fold stores the built globals one after the other, or fails
      with the first entry's error. */
  lemma {:induction false} IndexFoldPairs(t: Table, es: seq<Json>, details: Option<Json>)
    ensures IndexPairs(es, details).Err? ==> AddIndexEntries(Ok(t), es, details) == Err(IndexPairs(es, details).error)
    ensures IndexPairs(es, details).Ok? ==> AddIndexEntries(Ok(t), es, details) == Ok(StorePairs(t, IndexPairs(es, details).value))
    decreases |es|
  {
    if es != [] {
      match IndexSymbol(es[0], details)
      case Err(f) => IndexErr(f, es[1..], details);
      case Ok(p) =>
        IndexFoldPairs(t[p.0 := p.1], es[1..], details);
    }
  }

  /** Storing pairs one after the other: the keys are the old keys and the
      pairs' titles; the last pair of a title decides its symbol; a key no
      pair names keeps its old symbol. */
  lemma {:induction false} StorePairsPlaces(t: Table, ps: seq<(string, Symbol)>)
    ensures forall k :: k in StorePairs(t, ps) <==> k in t || exists i :: 0 <= i < |ps| && ps[i].0 == k
    ensures forall i :: 0 <= i < |ps| && (forall j :: i < j < |ps| ==> ps[j].0 != ps[i].0) ==>
      ps[i].0 in StorePairs(t, ps) && StorePairs(t, ps)[ps[i].0] == ps[i].1
    ensures forall k :: k in t && (forall i :: 0 <= i < |ps| ==> ps[i].0 != k) ==>
      k in StorePairs(t, ps) && StorePairs(t, ps)[k] == t[k]
    decreases |ps|
  {
    if ps != [] {
      var t' := t[ps[0].0 := ps[0].1];
      var rest := ps[1..];
      StorePairsPlaces(t', rest);
      assert forall i :: 1 <= i < |ps| ==> ps[i] == rest[i - 1];
      forall k ensures k in StorePairs(t, ps) <==> k in t || exists i :: 0 <= i < |ps| && ps[i].0 == k {
        if k in StorePairs(t, ps) && k !in t && k != ps[0].0 {
          var i :| 0 <= i < |rest| && rest[i].0 == k;
          assert ps[i + 1].0 == k;
        }
      }
      forall i | 0 <= i < |ps| && (forall j :: i < j < |ps| ==> ps[j].0 != ps[i].0)
        ensures ps[i].0 in StorePairs(t, ps) && StorePairs(t, ps)[ps[i].0] == ps[i].1
      {
        if i > 0 {
          assert ps[i] == rest[i - 1];
          assert forall j :: i - 1 < j < |rest| ==> rest[j].0 != rest[i - 1].0 by {
            forall j | i - 1 < j < |rest| ensures rest[j].0 != rest[i - 1].0 {
              assert rest[j] == ps[j + 1];
            }
          }
        } else {
          assert forall j :: 0 <= j < |rest| ==> rest[j].0 != ps[0].0 by {
            forall j | 0 <= j < |rest| ensures rest[j].0 != ps[0].0 {
              assert rest[j] == ps[j + 1];
            }
          }
        }
      }
      forall k | k in t && (forall i :: 0 <= i < |ps| ==> ps[i].0 != k)
        ensures k in StorePairs(t, ps) && StorePairs(t, ps)[k] == t[k]
      {
        assert ps[0].0 != k;
        assert forall j :: 0 <= j < |rest| ==> rest[j].0 != k by {
          forall j | 0 <= j < |rest| ensures rest[j].0 != k {
            assert rest[j] == ps[j + 1];
          }
        }
      }
    }
  }

  lemma OverlayErr(f: Failure, es: seq<(string, Json)>)
    ensures ApplyOverlay(Err(f), es) == Err(f)
  {
  }

  /** The member loop of lines 73-81 (`skipMeta`) or 99-106. */
  method FillMembers(start: Members, props: seq<(string, Json)>, skipMeta: bool) returns (r: Result<Members>)
    ensures r == CollectMembers(Ok(start), props, skipMeta)
  {
    var ms := start;
    var j := 0;
    while j < |props|
      invariant 0 <= j <= |props|
      invariant CollectMembers(Ok(ms), props[j..], skipMeta) == CollectMembers(Ok(start), props, skipMeta)
    {
      assert props[j..][1..] == props[j + 1..];
      assert CollectMembers(Ok(ms), props[j..], skipMeta)
          == CollectMembers(AddMemberEntry(Ok(ms), props[j], skipMeta), props[j + 1..], skipMeta);
      var (prop, propData) := props[j];
      if !(skipMeta && IsMetaKey(prop)) {
        var m := MemberOf(propData);
        if m.Err? {
          CollectErr(m.error, props[j + 1..], skipMeta);
          return Err(m.error);
        }
        ms := Place(ms, prop, m.value);
      }
      j := j + 1;
    }
    assert props[j..] == [];
    r := Ok(ms);
  }

  /** Lines 57-82: one symbol per top-level entry that is not a meta key. */
  method FillTopLevel(symbols: seq<(string, Json)>) returns (r: Result<Table>)
    ensures r == AddTopLevel(Ok(map[]), symbols)
  {
    var table: Table := map[];
    var i := 0;
    while i < |symbols|
      invariant 0 <= i <= |symbols|
      invariant AddTopLevel(Ok(table), symbols[i..]) == AddTopLevel(Ok(map[]), symbols)
    {
      assert symbols[i..][1..] == symbols[i + 1..];
      assert AddTopLevel(Ok(table), symbols[i..])
          == AddTopLevel(AddTopLevelEntry(Ok(table), symbols[i]), symbols[i + 1..]);
      var (name, data) := symbols[i];
      if IsSymbolKey(name) {
        var head := SymbolHead(name, data);
        if head.Err? {
          TopLevelErr(head.error, symbols[i + 1..]);
          return Err(head.error);
        }
        var props := Entries(data);
        var ms := FillMembers(NoMembers, props.value, true);
        if ms.Err? {
          TopLevelErr(ms.error, symbols[i + 1..]);
          return Err(ms.error);
        }
        table := table[name := head.value.(members := Some(ms.value))];
      }
      i := i + 1;
    }
    assert symbols[i..] == [];
    r := Ok(table);
  }

  /** Lines 85-94: one global per index entry. */
  method FillIndex(start: Table, entries: seq<Json>, details: Option<Json>) returns (r: Result<Table>)
    ensures r == AddIndexEntries(Ok(start), entries, details)
  {
    var table := start;
    var k := 0;
    while k < |entries|
      invariant 0 <= k <= |entries|
      invariant AddIndexEntries(Ok(table), entries[k..], details) == AddIndexEntries(Ok(start), entries, details)
    {
      assert entries[k..][1..] == entries[k + 1..];
      assert AddIndexEntries(Ok(table), entries[k..], details)
          == AddIndexEntries(AddIndexEntry(Ok(table), entries[k], details), entries[k + 1..], details);
      var p := IndexSymbol(entries[k], details);
      if p.Err? {
        IndexErr(p.error, entries[k + 1..], details);
        return Err(p.error);
      }
      table := table[p.value.0 := p.value.1];
      k := k + 1;
    }
    assert entries[k..] == [];
    r := Ok(table);
  }

  /** Lines 97-107: the extra members of `!define` merged into their symbols. */
  method FillOverlay(start: Table, overlay: seq<(string, Json)>) returns (r: Result<Table>)
    ensures r == ApplyOverlay(Ok(start), overlay)
  {
    var table := start;
    var n := 0;
    while n < |overlay|
      invariant 0 <= n <= |overlay|
      invariant ApplyOverlay(Ok(table), overlay[n..]) == ApplyOverlay(Ok(start), overlay)
    {
      assert overlay[n..][1..] == overlay[n + 1..];
      assert ApplyOverlay(Ok(table), overlay[n..])
          == ApplyOverlay(AddOverlayEntry(Ok(table), overlay[n]), overlay[n + 1..]);
      var (symbol, symbolData) := overlay[n];
      var props := Entries(symbolData);
      if props.Err? {
        OverlayErr(props.error, overlay[n + 1..]);
        return Err(props.error);
      }
      if props.value != [] {
        if symbol !in table || table[symbol].members.None? {
          OverlayErr(TypeError("Cannot set property of undefined"), overlay[n + 1..]);
          return Err(TypeError("Cannot set property of undefined"));
        }
        var ms := FillMembers(table[symbol].members.value, props.value, false);
        if ms.Err? {
          OverlayErr(ms.error, overlay[n + 1..]);
          return Err(ms.error);
        }
        table := table[symbol := table[symbol].(members := Some(ms.value))];
      }
      n := n + 1;
    }
    assert overlay[n..] == [];
    r := Ok(table);
  }

  /** Lines 57-107: the symbol table of a parsed definition file. */
  method BuildSymbolTable(doc: Json) returns (r: Result<Table>)
    ensures r == SymbolTable(doc)
  {
    var es := Entries(doc);
    if es.Err? { return Err(es.error); }
    var t1 := FillTopLevel(es.value);
    if t1.Err? { return t1; }
    var entries := Iterate(Field(doc, "indexEntries"));
    if entries.Err? { return Err(entries.error); }
    var t2 := FillIndex(t1.value, entries.value, Field(doc, "details"));
    if t2.Err? { return t2; }
    var overlay := OverlayEntries(doc);
    if overlay.Err? { return Err(overlay.error); }
    r := FillOverlay(t2.value, overlay.value);
  }

  // ---------------------------------------------------------------------
  // Properties of the table.

  predicate DistinctKeys(es: seq<(string, Json)>) {
    forall i, j :: 0 <= i < j < |es| ==> es[i].0 != es[j].0
  }

  /** The entry at `i` is turned into a member. */
  predicate Taken(es: seq<(string, Json)>, i: int, skipMeta: bool)
    requires 0 <= i < |es|
  {
    !(skipMeta && IsMetaKey(es[i].0))
  }

  predicate FnTyped(v: Json) {
    TypeText(v).Ok? && Contains(TypeText(v).value, "fn")
  }

  /** Some taken entry of key `k` has a type containing `fn`. */
  predicate FnEntry(es: seq<(string, Json)>, k: string, skipMeta: bool) {
    exists i :: 0 <= i < |es| && es[i].0 == k && Taken(es, i, skipMeta) && FnTyped(es[i].1)
  }

  /** Some taken entry of key `k` has a type without `fn` (or none). */
  predicate PropEntry(es: seq<(string, Json)>, k: string, skipMeta: bool) {
    exists i :: 0 <= i < |es| && es[i].0 == k && Taken(es, i, skipMeta) && !FnTyped(es[i].1)
  }

  lemma EntryStep(es: seq<(string, Json)>, skipMeta: bool)
    requires |es| > 0
    ensures forall k :: FnEntry(es, k, skipMeta) <==>
      (Taken(es, 0, skipMeta) && es[0].0 == k && FnTyped(es[0].1)) || FnEntry(es[1..], k, skipMeta)
    ensures forall k :: PropEntry(es, k, skipMeta) <==>
      (Taken(es, 0, skipMeta) && es[0].0 == k && !FnTyped(es[0].1)) || PropEntry(es[1..], k, skipMeta)
  {
    forall i | 1 <= i < |es| ensures es[1..][i - 1] == es[i] && (Taken(es, i, skipMeta) <==> Taken(es[1..], i - 1, skipMeta)) { }
    forall k | FnEntry(es[1..], k, skipMeta) ensures FnEntry(es, k, skipMeta) {
      var j :| 0 <= j < |es[1..]| && es[1..][j].0 == k && Taken(es[1..], j, skipMeta) && FnTyped(es[1..][j].1);
      assert es[j + 1] == es[1..][j];
    }
    forall k | PropEntry(es[1..], k, skipMeta) ensures PropEntry(es, k, skipMeta) {
      var j :| 0 <= j < |es[1..]| && es[1..][j].0 == k && Taken(es[1..], j, skipMeta) && !FnTyped(es[1..][j].1);
      assert es[j + 1] == es[1..][j];
    }
  }

  /** Which member table each entry lands in (lines 73-81, 99-106): a key is
      a function exactly when some taken entry of that key has a type
      containing `fn`, a property exactly when some taken entry of that key
      has another type (a missing type counts as `""`), each carries its
      entry's record, and keys already present are otherwise kept. */
  lemma {:induction false} CollectMembersPlaces(acc: Members, es: seq<(string, Json)>, skipMeta: bool, ms: Members)
    requires DistinctKeys(es)
    requires CollectMembers(Ok(acc), es, skipMeta) == Ok(ms)
    decreases |es|
    ensures forall k :: k in ms.functions <==> k in acc.functions || FnEntry(es, k, skipMeta)
    ensures forall k :: k in ms.properties <==> k in acc.properties || PropEntry(es, k, skipMeta)
    ensures forall k :: k in acc.functions && !FnEntry(es, k, skipMeta) ==> ms.functions[k] == acc.functions[k]
    ensures forall k :: k in acc.properties && !PropEntry(es, k, skipMeta) ==> ms.properties[k] == acc.properties[k]
    ensures forall i :: 0 <= i < |es| && Taken(es, i, skipMeta) ==>
      MemberOf(es[i].1).Ok? &&
      (if FnTyped(es[i].1) then es[i].0 in ms.functions && ms.functions[es[i].0] == MemberOf(es[i].1).value
       else es[i].0 in ms.properties && ms.properties[es[i].0] == MemberOf(es[i].1).value)
  {
    if es != [] {
      var e := es[0];
      var step := AddMemberEntry(Ok(acc), e, skipMeta);
      CollectOkFromOk(step, es[1..], skipMeta);
      var acc' := step.value;
      assert DistinctKeys(es[1..]);
      CollectMembersPlaces(acc', es[1..], skipMeta, ms);
      EntryStep(es, skipMeta);
      assert forall j :: 0 <= j < |es[1..]| ==> es[1..][j].0 != e.0;
      assert !FnEntry(es[1..], e.0, skipMeta) && !PropEntry(es[1..], e.0, skipMeta);
      if Taken(es, 0, skipMeta) {
        var m := MemberOf(e.1).value;
        assert FnTyped(e.1) <==> Contains(m.definition, "fn");
        assert acc' == Place(acc, e.0, m);
      } else {
        assert acc' == acc;
      }
      forall i | 1 <= i < |es| && Taken(es, i, skipMeta)
        ensures MemberOf(es[i].1).Ok? &&
          (if FnTyped(es[i].1) then es[i].0 in ms.functions && ms.functions[es[i].0] == MemberOf(es[i].1).value
           else es[i].0 in ms.properties && ms.properties[es[i].0] == MemberOf(es[i].1).value)
      {
        assert es[1..][i - 1] == es[i];
        assert Taken(es[1..], i - 1, skipMeta);
      }
    }
  }

  /** Entry `k` of the top-level object becomes a symbol. */
  predicate TopEntry(es: seq<(string, Json)>, k: string) {
    exists i :: 0 <= i < |es| && es[i].0 == k && IsSymbolKey(k)
  }

  lemma TopLevelOkFromOk(acc: Result<Table>, es: seq<(string, Json)>)
    decreases |es|
    ensures AddTopLevel(acc, es).Ok? ==> acc.Ok?
  {
    if es != [] {
      TopLevelOkFromOk(AddTopLevelEntry(acc, es[0]), es[1..]);
    }
  }

  /** Lines 57-82: the symbols are exactly the top-level keys other than
      `define`, `details` and `!`-keys, each with the record of its entry. */
  lemma {:induction false} TopLevelPlaces(acc: Table, es: seq<(string, Json)>, r: Table)
    requires DistinctKeys(es)
    requires AddTopLevel(Ok(acc), es) == Ok(r)
    decreases |es|
    ensures forall k :: k in r <==> k in acc || TopEntry(es, k)
    ensures forall k :: k in acc && !TopEntry(es, k) ==> r[k] == acc[k]
    ensures forall i :: 0 <= i < |es| && IsSymbolKey(es[i].0) ==>
      SymbolOf(es[i].0, es[i].1).Ok? && es[i].0 in r && r[es[i].0] == SymbolOf(es[i].0, es[i].1).value
  {
    if es != [] {
      var e := es[0];
      var step := AddTopLevelEntry(Ok(acc), e);
      TopLevelOkFromOk(step, es[1..]);
      var acc' := step.value;
      assert DistinctKeys(es[1..]);
      TopLevelPlaces(acc', es[1..], r);
      forall i | 1 <= i < |es| ensures es[1..][i - 1] == es[i] { }
      forall k | TopEntry(es[1..], k) ensures TopEntry(es, k) {
        var j :| 0 <= j < |es[1..]| && es[1..][j].0 == k && IsSymbolKey(k);
        assert es[j + 1] == es[1..][j];
      }
      assert forall k :: TopEntry(es, k) <==> (e.0 == k && IsSymbolKey(k)) || TopEntry(es[1..], k);
      assert forall j :: 0 <= j < |es[1..]| ==> es[1..][j].0 != e.0;
      assert !TopEntry(es[1..], e.0);
    }
  }
}
