/** The documentation-link collector of getInvalidUrlsFromTern.js: `getUrl`
    (43-51) gathers the `!url` values of a parsed Tern definition file, and
    lines 61-64 flatten, filter, sort, split and group them into an object
    from page address to the anchors linked on that page. */
module UrlCheck {
  import opened Results
  import opened Text
  import opened Js
  import opened ArrayMaps

  // ---------------------------------------------------------------------
  // getUrl (lines 43-51).

  /** How many values `Object.values(p)` yields for an array or an object.
      The characters of a string are strings, which the walk skips, so a
      string counts as having none. */
  function ChildCount(p: Json): nat {
    match p
    case JArr(items) => |items|
    case JObj(fields) => |fields|
    case _ => 0
  }

  function Child(p: Json, i: nat): Json
    requires i < ChildCount(p)
  {
    if p.JArr? then p.items[i] else p.fields[i].1
  }

  /** `typeof v == "object"` (line 47): objects, arrays and `null`. */
  predicate IsObject(v: Json) {
    TypeOf(Some(v)) == "object"
  }

  /** Line 44: the node carries a truthy `!url`. */
  predicate HasUrl(o: Json) {
    o.JObj? && TruthyOpt(Lookup(o.fields, "!url"))
  }

  const NullRead: Failure := TypeError("Cannot read property '!url' of null")

  /** `getUrl(o)`: the node's own `!url` when it is truthy, otherwise the
      array of the results for its object-valued children; `null` throws. */
  function GetUrl(o: Json): (r: Result<Json>)
    decreases o, 1
    ensures r.Err? ==> r == Err(NullRead)
    ensures o.JNull? ==> r.Err?
    ensures HasUrl(o) ==> r == Ok(Lookup(o.fields, "!url").value)
    ensures r.Ok? && !HasUrl(o) ==> r.value.JArr?
  {
    if o.JNull? then Err(NullRead)
    else if HasUrl(o) then Ok(Lookup(o.fields, "!url").value)
    else if o.JArr? || o.JObj? then
      match GetUrlsFrom(o, 0)
      case Err(e) => Err(e)
      case Ok(us) => Ok(JArr(us))
    else Ok(JArr([]))
  }

  /** Lines 45-49 from the `i`-th value of `p` on. */
  function GetUrlsFrom(p: Json, i: nat): (r: Result<seq<Json>>)
    requires p.JArr? || p.JObj?
    requires i <= ChildCount(p)
    decreases p, 0, ChildCount(p) - i
    ensures r.Err? ==> r == Err(NullRead)
  {
    if i == ChildCount(p) then Ok([])
    else if !IsObject(Child(p, i)) then GetUrlsFrom(p, i + 1)
    else
      var u := if p.JArr? then GetUrl(p.items[i]) else GetUrl(p.fields[i].1);
      match u
      case Err(e) => Err(e)
      case Ok(v) =>
        match GetUrlsFrom(p, i + 1)
        case Err(e) => Err(e)
        case Ok(rest) => Ok([v] + rest)
  }

  /** A `null` among the values of a node without a link is read from and
      throws. */
  lemma {:induction false} NullChildThrows(p: Json, i: nat, j: nat)
    requires p.JArr? || p.JObj?
    requires i <= j < ChildCount(p) && Child(p, j).JNull?
    decreases j - i
    ensures GetUrlsFrom(p, i).Err?
  {
    if i < j {
      NullChildThrows(p, i + 1, j);
    }
  }

  lemma NullFieldThrows(o: Json, j: nat)
    requires o.JArr? || o.JObj?
    requires !HasUrl(o) && j < ChildCount(o) && Child(o, j).JNull?
    ensures GetUrl(o).Err?
  {
    NullChildThrows(o, 0, j);
  }

  /** An independent reading of what the walk collects: the topmost `!url`
      of every branch, in document order. */
  function TopUrls(o: Json): seq<Json>
    decreases o, 1
  {
    if HasUrl(o) then [Lookup(o.fields, "!url").value]
    else if o.JArr? || o.JObj? then TopUrlsFrom(o, 0)
    else []
  }

  function TopUrlsFrom(p: Json, i: nat): seq<Json>
    requires p.JArr? || p.JObj?
    requires i <= ChildCount(p)
    decreases p, 0, ChildCount(p) - i
  {
    if i == ChildCount(p) then []
    else if !IsObject(Child(p, i)) then TopUrlsFrom(p, i + 1)
    else (if p.JArr? then TopUrls(p.items[i]) else TopUrls(p.fields[i].1)) + TopUrlsFrom(p, i + 1)
  }

  /** How many levels of arrays `getUrl` nests around the links. */
  function Levels(o: Json): nat
    decreases o, 1
  {
    if HasUrl(o) || o.JNull? then 0
    else if o.JArr? || o.JObj? then 1 + LevelsFrom(o, 0)
    else 1
  }

  function LevelsFrom(p: Json, i: nat): nat
    requires p.JArr? || p.JObj?
    requires i <= ChildCount(p)
    decreases p, 0, ChildCount(p) - i
  {
    if i == ChildCount(p) then 0
    else if !IsObject(Child(p, i)) then LevelsFrom(p, i + 1)
    else
      var here := if p.JArr? then Levels(p.items[i]) else Levels(p.fields[i].1);
      var rest := LevelsFrom(p, i + 1);
      if here < rest then rest else here
  }

  // ---------------------------------------------------------------------
  // Line 61: `.flat(10).filter((v) => v)`.

  const FlatDepth: nat := 10

  /** `Array.prototype.flat(depth)`: arrays nested up to `depth` levels deep
      are spliced into their parent. */
  function Flat(xs: seq<Json>, depth: nat): seq<Json> {
    if xs == [] then []
    else (if xs[0].JArr? && depth > 0 then Flat(xs[0].items, depth - 1) else [xs[0]]) + Flat(xs[1..], depth)
  }

  lemma FlatCons(x: Json, xs: seq<Json>, depth: nat)
    ensures Flat([x] + xs, depth) == Flat([x], depth) + Flat(xs, depth)
  {
    assert ([x] + xs)[1..] == xs;
  }

  lemma {:induction false} FlatLevels(o: Json, depth: nat)
    requires GetUrl(o).Ok? && Levels(o) <= depth
    requires forall v :: v in TopUrls(o) ==> !v.JArr?
    decreases o, 1
    ensures Flat([GetUrl(o).value], depth) == TopUrls(o)
  {
    if HasUrl(o) {
    } else if o.JArr? || o.JObj? {
      FlatLevelsFrom(o, 0, depth - 1);
    } else {
    }
  }

  lemma {:induction false} FlatLevelsFrom(p: Json, i: nat, depth: nat)
    requires p.JArr? || p.JObj?
    requires i <= ChildCount(p)
    requires GetUrlsFrom(p, i).Ok? && LevelsFrom(p, i) <= depth
    requires forall v :: v in TopUrlsFrom(p, i) ==> !v.JArr?
    decreases p, 0, ChildCount(p) - i
    ensures Flat(GetUrlsFrom(p, i).value, depth) == TopUrlsFrom(p, i)
  {
    if i < ChildCount(p) {
      FlatLevelsFrom(p, i + 1, depth);
      if IsObject(Child(p, i)) {
        var c := Child(p, i);
        var rest := GetUrlsFrom(p, i + 1).value;
        assert GetUrlsFrom(p, i).value == [GetUrl(c).value] + rest;
        assert TopUrlsFrom(p, i) == TopUrls(c) + TopUrlsFrom(p, i + 1);
        if p.JArr? {
          FlatLevels(p.items[i], depth);
        } else {
          FlatLevels(p.fields[i].1, depth);
        }
        FlatCons(GetUrl(c).value, rest, depth);
      }
    }
  }

  /** The truthy values, in order. */
  function Truthies(xs: seq<Json>): (r: seq<Json>)
    ensures forall v :: v in r <==> v in xs && Truthy(v)
    ensures |r| <= |xs|
  {
    if xs == [] then []
    else (if Truthy(xs[0]) then [xs[0]] else []) + Truthies(xs[1..])
  }

  /** The strings `vs` holds, when it holds nothing else. */
  function Strings(vs: seq<Json>): (r: Option<seq<string>>)
    ensures r.Some? <==> forall k :: 0 <= k < |vs| ==> vs[k].JStr?
    ensures r.Some? ==> |r.value| == |vs| && forall k :: 0 <= k < |vs| ==> r.value[k] == vs[k].s
  {
    if vs == [] then Some([])
    else if !vs[0].JStr? then None
    else match Strings(vs[1..])
      case None => None
      case Some(rest) => Some([vs[0].s] + rest)
  }

  /** Line 61 and the `url.split` of line 63: the collected links, which
      must all be strings. A link on the root turns the result into a
      non-array, which has no `flat`. */
  function UrlList(response: Json): (r: Result<seq<string>>)
    ensures GetUrl(response).Err? ==> r == Err(NullRead)
    ensures r.Ok? ==> GetUrl(response).Ok? && GetUrl(response).value.JArr?
  {
    match GetUrl(response)
    case Err(e) => Err(e)
    case Ok(u) =>
      if !u.JArr? then Err(TypeError("getUrl(...).flat is not a function"))
      else match Strings(Truthies(Flat(u.items, FlatDepth)))
        case None => Err(TypeError("url.split is not a function"))
        case Some(urls) => Ok(urls)
  }

  /** On a file without `null` children, with links that are not arrays and
      nested no deeper than `flat(10)` reaches, the list is the topmost link
      of every branch in document order, empty links dropped. */
  lemma UrlListTop(response: Json)
    requires GetUrl(response).Ok? && !HasUrl(response)
    requires Levels(response) <= FlatDepth + 1
    requires forall v :: v in TopUrls(response) ==> !v.JArr?
    ensures Flat(GetUrl(response).value.items, FlatDepth) == TopUrls(response)
    ensures UrlList(response).Ok? <==> Strings(Truthies(TopUrls(response))).Some?
    ensures UrlList(response).Ok? ==> UrlList(response).value == Strings(Truthies(TopUrls(response))).value
  {
    var u := GetUrl(response).value;
    FlatLevels(response, FlatDepth + 1);
    assert u.JArr?;
    assert Flat([u], FlatDepth + 1) == Flat(u.items, FlatDepth) + Flat([], FlatDepth + 1);
  }

  // ---------------------------------------------------------------------
  // Line 62: `urls.sort()` compares strings character by character.

  /** `a` sorts no later than `b`: a prefix, or smaller at the first
      difference. */
  predicate NotAfter(a: string, b: string)
    decreases |a|
  {
    a == [] || (b != [] && (a[0] < b[0] || (a[0] == b[0] && NotAfter(a[1..], b[1..]))))
  }

  lemma {:induction false} NotAfterTotal(a: string, b: string)
    decreases |a|
    ensures NotAfter(a, b) || NotAfter(b, a)
  {
    if a != [] && b != [] && a[0] == b[0] {
      NotAfterTotal(a[1..], b[1..]);
    }
  }

  predicate SortedUrls(s: seq<string>) {
    forall k :: 0 <= k < |s| - 1 ==> NotAfter(s[k], s[k + 1])
  }

  function Insert(x: string, s: seq<string>): (r: seq<string>)
    ensures multiset(r) == multiset(s) + multiset{x}
    ensures |r| == |s| + 1 && (r[0] == x || (s != [] && r[0] == s[0]))
  {
    if s == [] || NotAfter(x, s[0]) then [x] + s
    else
      assert s == [s[0]] + s[1..];
      [s[0]] + Insert(x, s[1..])
  }

  lemma {:induction false} InsertSorted(x: string, s: seq<string>)
    requires SortedUrls(s)
    ensures SortedUrls(Insert(x, s))
  {
    if s != [] && !NotAfter(x, s[0]) {
      NotAfterTotal(x, s[0]);
      InsertSorted(x, s[1..]);
      var t := Insert(x, s[1..]);
      assert Insert(x, s) == [s[0]] + t;
      assert |s| > 1 ==> NotAfter(s[0], s[1]);
    }
  }

  function Sort(s: seq<string>): seq<string> {
    if s == [] then [] else Insert(s[0], Sort(s[1..]))
  }

  /** The sort is a permutation into order. */
  lemma {:induction false} SortSpec(s: seq<string>)
    ensures SortedUrls(Sort(s)) && multiset(Sort(s)) == multiset(s)
  {
    if s != [] {
      SortSpec(s[1..]);
      InsertSorted(s[0], Sort(s[1..]));
      assert s == [s[0]] + s[1..];
    }
  }

  // ---------------------------------------------------------------------
  // Lines 63-64: split on "#" and group by page.

  /** `url.split("#")`, a new array for each link (its position tells the
      arrays apart as map keys). */
  function SplitKeys(urls: seq<string>): (r: seq<Value>)
    ensures |r| == |urls| && forall i :: 0 <= i < |urls| ==> r[i] == Arr(i, Split(urls[i], "#"))
  {
    seq(|urls|, i requires 0 <= i < |urls| => Arr(i, Split(urls[i], "#")))
  }

  /** `new ArrayMap(urls).toObject()`. */
  function Grouped(urls: seq<string>): seq<(string, seq<Value>)> {
    AddedAllLists(SplitKeys(urls));
    ObjectOf(AddedAll(Empty, SplitKeys(urls)))
  }

  method GroupUrls(urls: seq<string>) returns (obj: seq<(string, seq<Value>)>)
    ensures obj == Grouped(urls)
  {
    var keys := seq(|urls|, i requires 0 <= i < |urls| => Arr(i, Split(urls[i], "#")));
    var m := new ArrayMap(keys);
    obj := m.ToObject();
  }

  /** Lines 61-64: the page object built from a parsed definition file. */
  function Pages(response: Json): Result<seq<(string, seq<Value>)>> {
    match UrlList(response)
    case Err(e) => Err(e)
    case Ok(urls) => Ok(Grouped(Sort(urls)))
  }

  method CollectPages(response: Json) returns (r: Result<seq<(string, seq<Value>)>>)
    ensures r == Pages(response)
  {
    var urls := UrlList(response);
    if urls.Err? {
      return Err(urls.error);
    }
    var sorted := Sort(urls.value);
    var obj := GroupUrls(sorted);
    r := Ok(obj);
  }

  /** The page part of a link and what follows its first `#`. */
  function Page(url: string): string {
    Split(url, "#")[0]
  }

  function Anchors(url: string): seq<string> {
    Split(url, "#")[1..]
  }

  /** The anchor parts of the links to `page`, in list order. */
  function AnchorsOn(urls: seq<string>, page: string): seq<seq<string>>
    decreases |urls|
  {
    if urls == [] then []
    else
      var last := urls[|urls| - 1];
      AnchorsOn(urls[..|urls| - 1], page) + (if Page(last) == page then [Anchors(last)] else [])
  }

  /** The elements of the arrays a property holds. */
  function ItemLists(vs: seq<Value>): (r: seq<seq<string>>)
    ensures |r| == |vs| && forall k :: 0 <= k < |vs| ==> r[k] == (if vs[k].Arr? then vs[k].items else [])
  {
    seq(|vs|, k requires 0 <= k < |vs| => if vs[k].Arr? then vs[k].items else [])
  }

  lemma SplitHash(url: string)
    requires Contains(url, "#")
    ensures |Split(url, "#")| >= 2
  {
  }

  lemma KeyOfLink(urls: seq<string>, i: nat)
    requires i < |urls| && Contains(urls[i], "#")
    ensures KeyOf(SplitKeys(urls)[i]) == Str(Page(urls[i]))
  {
    SplitHash(urls[i]);
  }

  lemma ItemListsConcat(a: seq<Value>, b: seq<Value>)
    ensures ItemLists(a + b) == ItemLists(a) + ItemLists(b)
  {
  }

  /** The last link adds its anchor parts to its page. */
  lemma StoredLast(urls: seq<string>, page: string)
    requires urls != [] && Contains(urls[|urls| - 1], "#")
    ensures var n := |urls| - 1;
      ValuesFor(SplitKeys(urls), Str(page))
        == ValuesFor(SplitKeys(urls[..n]), Str(page)) + (if Page(urls[n]) == page then [Arr(n, Anchors(urls[n]))] else [])
  {
    var n := |urls| - 1;
    var xs := SplitKeys(urls);
    assert xs[..n] == SplitKeys(urls[..n]);
    SplitHash(urls[n]);
    assert Normalize(xs[n], Undefined) == (Str(Page(urls[n])), Arr(n, Anchors(urls[n])));
  }

  lemma {:induction false} StoredAnchors(urls: seq<string>, page: string)
    requires forall i :: 0 <= i < |urls| ==> Contains(urls[i], "#")
    decreases |urls|
    ensures ItemLists(ValuesFor(SplitKeys(urls), Str(page))) == AnchorsOn(urls, page)
  {
    if urls != [] {
      var n := |urls| - 1;
      var init := urls[..n];
      StoredAnchors(init, page);
      StoredLast(urls, page);
      var added := if Page(urls[n]) == page then [Arr(n, Anchors(urls[n]))] else [];
      ItemListsConcat(ValuesFor(SplitKeys(init), Str(page)), added);
      assert ItemLists(added) == if Page(urls[n]) == page then [Anchors(urls[n])] else [];
    }
  }

  /** Links that all carry an anchor are grouped by page: the property
      names are distinct, every link's page is one of them, and each page
      holds the anchor parts of its links in list order. */
  lemma GroupedByPage(urls: seq<string>)
    requires forall i :: 0 <= i < |urls| ==> Contains(urls[i], "#")
    ensures var obj := Grouped(urls);
      (forall j, k :: 0 <= j < k < |obj| ==> obj[j].0 != obj[k].0) &&
      (forall j :: 0 <= j < |obj| ==> AnchorsOn(urls, obj[j].0) != [] && ItemLists(obj[j].1) == AnchorsOn(urls, obj[j].0)) &&
      (forall i :: 0 <= i < |urls| ==> exists j :: 0 <= j < |obj| && obj[j].0 == Page(urls[i]))
  {
    var xs := SplitKeys(urls);
    AddedAllLists(xs);
    var st := AddedAll(Empty, xs);
    forall j | 0 <= j < |st.keys| ensures st.keys[j].Str? && st.keys[j] == Str(st.keys[j].s) {
      StoredKeys(xs, st.keys[j]);
      var i :| 0 <= i < |xs| && KeyOf(xs[i]) == st.keys[j];
      KeyOfLink(urls, i);
    }
    ObjectOfStrings(st.keys, st.lists);
    var obj := Grouped(urls);
    forall j | 0 <= j < |obj|
      ensures AnchorsOn(urls, obj[j].0) != [] && ItemLists(obj[j].1) == AnchorsOn(urls, obj[j].0)
    {
      StoredAnchors(urls, obj[j].0);
    }
    forall i | 0 <= i < |urls| ensures exists j :: 0 <= j < |obj| && obj[j].0 == Page(urls[i]) {
      KeyOfLink(urls, i);
      StoredKeys(xs, Str(Page(urls[i])));
      var j :| 0 <= j < |st.keys| && st.keys[j] == Str(Page(urls[i]));
      assert obj[j].0 == Page(urls[i]);
    }
  }

  /** For a definition file whose links all carry an anchor, every page of
      the result holds the anchors of its links in sorted order of the full
      links. */
  lemma PagesSorted(response: Json)
    requires UrlList(response).Ok?
    requires forall i :: 0 <= i < |UrlList(response).value| ==> Contains(UrlList(response).value[i], "#")
    ensures var sorted := Sort(UrlList(response).value);
      SortedUrls(sorted) && multiset(sorted) == multiset(UrlList(response).value) &&
      Pages(response).Ok? &&
      forall j :: 0 <= j < |Pages(response).value| ==>
        ItemLists(Pages(response).value[j].1) == AnchorsOn(sorted, Pages(response).value[j].0)
  {
    var urls := UrlList(response).value;
    var sorted := Sort(urls);
    SortSpec(urls);
    forall i | 0 <= i < |sorted| ensures Contains(sorted[i], "#") {
      assert sorted[i] in multiset(urls);
    }
    GroupedByPage(sorted);
  }
}
