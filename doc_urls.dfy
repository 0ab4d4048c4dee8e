/** `convertURL` (buildFromTernDefinition.js:255-270): an in-app documentation
    link `scriptable://docs?bridgeName=B&methodName=M` becomes the web address
    `https://docs.scriptable.app/B/#M`. */
module DocUrls {
  import opened Results
  import opened Text

  const Scheme: string := "scriptable://docs?"
  const Site: string := "https://docs.scriptable.app/"

  /** Line 256: `/^scriptable:\/\/docs\?(.*)$/` without the `m` flag, so `^`
      and `$` only match at the ends of the string and `.` stops at a line
      terminator. The capture is the query. */
  function Query(url: string): (q: Option<string>)
    ensures q.Some? <==> StartsWith(url, Scheme) && forall k :: |Scheme| <= k < |url| ==> !IsLineTerminator(url[k])
    ensures q.Some? ==> url == Scheme + q.value
  {
    if StartsWith(url, Scheme) && forall k :: |Scheme| <= k < |url| ==> !IsLineTerminator(url[k]) then
      Some(url[|Scheme|..])
    else None
  }

  /** A template literal renders a missing value as `undefined`. */
  function Render(v: Option<string>): string {
    if v.Some? then v.value else "undefined"
  }

  /** Lines 259-267: the value a query part `name=value` assigns to `key`
      (`parts[1]`, `undefined` without `=`), or `None` when the part is about
      another key. */
  function Assignment(part: string, key: string): Option<Option<string>> {
    var kv := Split(part, "=");
    if kv[0] != key then None
    else if |kv| > 1 then Some(Some(kv[1]))
    else Some(None)
  }

  /** The value `key` holds after the loop over `parts`: the last part that
      names it decides. */
  function Setting(parts: seq<string>, key: string): Option<string>
    decreases |parts|
  {
    if parts == [] then None
    else match Assignment(parts[|parts| - 1], key)
      case Some(v) => v
      case None => Setting(parts[..|parts| - 1], key)
  }

  /** The whole conversion: a link whose prefix does not match makes the
      `[1]` read on `null` throw. */
  function DocsUrl(url: string): (r: Result<string>)
    ensures r.Err? <==> Query(url).None?
  {
    match Query(url)
    case None => Err(TypeError("Cannot read property '1' of null"))
    case Some(q) =>
      var parts := Split(q, "&");
      Ok(Site + Render(Setting(parts, "bridgeName")) + "/#" + Render(Setting(parts, "methodName")))
  }

  /** Lines 255-270 as written: `bridge` and `method` are updated part by part. */
  method ConvertUrl(url: string) returns (r: Result<string>)
    ensures r == DocsUrl(url)
  {
    var m := Query(url);
    if m.None? {
      return Err(TypeError("Cannot read property '1' of null"));
    }
    var query := Split(m.value, "&");
    var bridge: Option<string> := None;
    var member: Option<string> := None;
    for i := 0 to |query|
      invariant bridge == Setting(query[..i], "bridgeName")
      invariant member == Setting(query[..i], "methodName")
    {
      assert query[..i + 1][..i] == query[..i];
      var parts := Split(query[i], "=");
      if parts[0] == "bridgeName" {
        bridge := if |parts| > 1 then Some(parts[1]) else None;
      } else if parts[0] == "methodName" {
        member := if |parts| > 1 then Some(parts[1]) else None;
      }
    }
    assert query[..|query|] == query;
    r := Ok(Site + Render(bridge) + "/#" + Render(member));
  }

  /** A part naming another key leaves a setting as it was. */
  lemma UnknownKeyIgnored(parts: seq<string>, part: string, key: string)
    requires Split(part, "=")[0] != key
    ensures Setting(parts + [part], key) == Setting(parts, key)
  {
    assert (parts + [part])[..|parts|] == parts;
  }

  /** The last assignment to a key wins over every earlier one. */
  lemma LastDuplicateWins(parts: seq<string>, key: string, v: string)
    requires '=' !in key && '=' !in v
    ensures Setting(parts + [key + "=" + v], key) == Some(v)
  {
    SplitJoin([key, v], '=');
    assert Join("=", [key, v]) == key + "=" + v;
  }

  /** A part without `=` resets the key to `undefined`. */
  lemma BareKeyResets(parts: seq<string>, key: string)
    requires '=' !in key
    ensures Setting(parts + [key], key) == None
  {
    SplitJoin([key], '=');
  }

  /** No character of `s` ends a line. */
  predicate SingleLine(s: string) {
    forall k :: 0 <= k < |s| ==> !IsLineTerminator(s[k])
  }

  lemma SingleLineConcat(a: string, b: string)
    requires SingleLine(a) && SingleLine(b)
    ensures SingleLine(a + b)
  {
    forall k | 0 <= k < |a + b| ensures !IsLineTerminator((a + b)[k]) {
      if k >= |a| { assert (a + b)[k] == b[k - |a|]; }
    }
  }

  /** A link with the scheme and a single-line query matches. */
  lemma QueryOfLink(q: string)
    requires SingleLine(q)
    ensures Query(Scheme + q) == Some(q)
  {
    var url := Scheme + q;
    assert url[..|Scheme|] == Scheme;
    forall k | |Scheme| <= k < |url| ensures !IsLineTerminator(url[k]) {
      assert url[k] == q[k - |Scheme|];
    }
    assert url[|Scheme|..] == q;
  }

  /** Two parts about two different keys set both keys. */
  lemma TwoSettings(k1: string, v1: string, k2: string, v2: string)
    requires k1 != k2 && '=' !in k1 && '=' !in v1 && '=' !in k2 && '=' !in v2
    ensures var parts := [k1 + "=" + v1, k2 + "=" + v2];
      Setting(parts, k1) == Some(v1) && Setting(parts, k2) == Some(v2)
  {
    var p1, p2 := k1 + "=" + v1, k2 + "=" + v2;
    LastDuplicateWins([p1], k2, v2);
    LastDuplicateWins([], k1, v1);
    SplitJoin([k2, v2], '=');
    assert Join("=", [k2, v2]) == p2;
    UnknownKeyIgnored([p1], p2, k1);
    assert [p1] + [p2] == [p1, p2];
    assert [] + [p1] == [p1];
  }

  /** A query of two parts without `&` is read as exactly those parts. */
  lemma QueryOfParts(b: string, m: string)
    requires '&' !in b && '&' !in m && SingleLine(b) && SingleLine(m)
    ensures DocsUrl(Scheme + (b + "&" + m))
         == Ok(Site + Render(Setting([b, m], "bridgeName")) + "/#" + Render(Setting([b, m], "methodName")))
  {
    var q := b + "&" + m;
    SingleLineConcat(b, "&");
    SingleLineConcat(b + "&", m);
    QueryOfLink(q);
    SplitJoin([b, m], '&');
    assert Join("&", [b, m]) == q;
    assert Split(q, "&") == [b, m];
  }

  /** What the two query keys are made of. */
  lemma KeyFacts()
    ensures SingleLine("bridgeName=") && SingleLine("methodName=")
    ensures "bridgeName=" == "bridgeName" + "=" && "methodName=" == "methodName" + "="
    ensures '=' !in "bridgeName" && '=' !in "methodName" && "bridgeName" != "methodName"
  {
    assert "bridgeName"[0] != "methodName"[0];
  }

  /** The in-app link to the documentation of `member` of `bridge`. */
  function DocsLink(bridge: string, member: string): string {
    Scheme + (("bridgeName=" + bridge) + "&" + ("methodName=" + member))
  }

  lemma LinkQuery(bridge: string, member: string)
    requires '&' !in bridge && '&' !in member && SingleLine(bridge) && SingleLine(member)
    ensures var parts := ["bridgeName=" + bridge, "methodName=" + member];
      DocsUrl(DocsLink(bridge, member))
        == Ok(Site + Render(Setting(parts, "bridgeName")) + "/#" + Render(Setting(parts, "methodName")))
  {
    KeyFacts();
    SingleLineConcat("bridgeName=", bridge);
    SingleLineConcat("methodName=", member);
    QueryOfParts("bridgeName=" + bridge, "methodName=" + member);
  }

  lemma LinkSettings(bridge: string, member: string)
    requires '=' !in bridge && '=' !in member
    ensures var parts := ["bridgeName=" + bridge, "methodName=" + member];
      Setting(parts, "bridgeName") == Some(bridge) && Setting(parts, "methodName") == Some(member)
  {
    KeyFacts();
    TwoSettings("bridgeName", bridge, "methodName", member);
  }

  /** Round trip: a well-formed link yields the web address of exactly its
      bridge and member names. */
  lemma ConvertWellFormed(bridge: string, member: string)
    requires '&' !in bridge && '=' !in bridge && '&' !in member && '=' !in member
    requires SingleLine(bridge) && SingleLine(member)
    ensures DocsUrl(DocsLink(bridge, member)) == Ok(Site + bridge + "/#" + member)
  {
    LinkQuery(bridge, member);
    LinkSettings(bridge, member);
  }
}
