/** The line-anchored regular expressions of the globals step
    (buildFromTernDefinition.js:205-220), each a multiline `^` followed by
    literal text, a choice of keywords, `\b`, a `[^)]*` run or the rest of the
    line. Names interpolated into them are taken literally. */
module Patterns {
  import opened Results
  import opened Text

  /** The regular expressions built at lines 205-220. */
  datatype Pattern =
    | Declares(keywords: seq<string>, name: string)  // ^(declare (?:k1|k2|…) )name\b
    | DeclarationLine                                 // ^declare (class|interface|function|var) [^\n]+
    | Member(name: string)                            // ^(?:static )?name\b
    | Static                                          // ^static (with its space)
    | Call(name: string)                              // ^name\([^)]*\):?
    | Word(name: string)                              // ^name\b

  /** A match: where it starts, how many characters it spans and the
      declaration keyword it captured ("" when the pattern has none). */
  datatype Match = Match(at: nat, len: nat, keyword: string)

  const DeclarationKeywords: seq<string> := ["class", "interface", "function", "var"]

  /** The first keyword `k` of `kws` for which `declare k ` occurs at `i`.
      None of the keywords used is a prefix of another, so at most one of
      them can occur there and the order of the alternatives does not
      matter. */
  function KeywordAt(s: string, i: nat, kws: seq<string>): (r: Option<string>)
    ensures r.Some? ==> r.value in kws && OccursAt(s, "declare " + r.value + " ", i)
    ensures r.None? ==> forall k :: k in kws ==> !OccursAt(s, "declare " + k + " ", i)
  {
    if kws == [] then None
    else if OccursAt(s, "declare " + kws[0] + " ", i) then Some(kws[0])
    else KeywordAt(s, i, kws[1..])
  }

  /** `lit\b` matches at `i`. */
  predicate WordAt(s: string, i: nat, lit: string) {
    OccursAt(s, lit, i) && WordBoundary(s, i + |lit|)
  }

  /** Where the line that contains position `j` ends. */
  function LineEndFrom(s: string, j: nat): (e: nat)
    requires j <= |s|
    ensures j <= e <= |s| && forall k :: j <= k < e ==> s[k] != '\n'
    ensures e < |s| ==> s[e] == '\n'
  {
    match CharFrom(s, '\n', j)
    case Some(e) => e
    case None => |s|
  }

  /** The match of `pat` that starts at `i`, if any. */
  function MatchAt(s: string, i: nat, pat: Pattern): (r: Option<Match>)
    ensures r.Some? ==> r.value.at == i && i + r.value.len <= |s| && LineStart(s, i)
  {
    if i > |s| || !LineStart(s, i) then None
    else match pat
      case Declares(kws, name) =>
        (match KeywordAt(s, i, kws)
         case None => None
         case Some(k) =>
           var lit := "declare " + k + " " + name;
           if WordAt(s, i, lit) then Some(Match(i, |lit|, k)) else None)
      case DeclarationLine =>
        (match KeywordAt(s, i, DeclarationKeywords)
         case None => None
         case Some(k) =>
           var j := i + |"declare " + k + " "|;
           if j < |s| && s[j] != '\n' then Some(Match(i, LineEndFrom(s, j) - i, k)) else None)
      case Member(name) =>
        if WordAt(s, i, "static " + name) then Some(Match(i, 7 + |name|, ""))
        else if WordAt(s, i, name) then Some(Match(i, |name|, ""))
        else None
      case Static =>
        if OccursAt(s, "static ", i) then Some(Match(i, 7, "")) else None
      case Call(name) =>
        if OccursAt(s, name + "(", i) then
          match CharFrom(s, ')', i + |name| + 1)
          case None => None
          case Some(e) => Some(Match(i, if e + 1 < |s| && s[e + 1] == ':' then e + 2 - i else e + 1 - i, ""))
        else None
      case Word(name) =>
        if WordAt(s, i, name) then Some(Match(i, |name|, "")) else None
  }

  /** The leftmost match at or after `from`, as `RegExp.prototype.exec` finds it. */
  function FirstMatchFrom(s: string, pat: Pattern, from: nat): (r: Option<Match>)
    decreases |s| + 1 - from
    ensures r.Some? ==> from <= r.value.at && MatchAt(s, r.value.at, pat) == r
    ensures r.Some? ==> forall j :: from <= j < r.value.at ==> MatchAt(s, j, pat).None?
    ensures r.None? ==> forall j :: from <= j ==> MatchAt(s, j, pat).None?
  {
    if from > |s| then None
    else
      match MatchAt(s, from, pat)
      case Some(m) => Some(m)
      case None => FirstMatchFrom(s, pat, from + 1)
  }

  /** `pat.exec(s)`: the leftmost match in the whole string. */
  function FirstMatch(s: string, pat: Pattern): Option<Match> {
    FirstMatchFrom(s, pat, 0)
  }

  /** `pat.test(s)`. */
  predicate Test(s: string, pat: Pattern) {
    FirstMatch(s, pat).Some?
  }

  /** The test succeeds exactly when the pattern matches somewhere. */
  lemma TestIff(s: string, pat: Pattern)
    ensures Test(s, pat) <==> exists i: nat :: MatchAt(s, i, pat).Some?
  {
    if Test(s, pat) {
      assert MatchAt(s, FirstMatch(s, pat).value.at, pat).Some?;
    }
  }

  /** A match somewhere makes the test succeed. */
  lemma MatchTests(s: string, pat: Pattern, i: nat)
    requires MatchAt(s, i, pat).Some?
    ensures Test(s, pat)
  {
  }

  /** The text `m` spans replaced by `rep`. */
  function Splice(s: string, m: Match, rep: string): (r: string)
    requires m.at + m.len <= |s|
    ensures |r| == |s| - m.len + |rep|
    ensures r[..m.at] == s[..m.at] && r[m.at..m.at + |rep|] == rep && r[m.at + |rep|..] == s[m.at + m.len..]
  {
    s[..m.at] + rep + s[m.at + m.len..]
  }

  /** `s` without its leading whitespace. */
  function DropSpaces(s: string): (r: string)
    ensures |r| <= |s| && r == s[|s| - |r|..]
    ensures r != [] ==> !IsSpace(r[0])
  {
    if s != [] && IsSpace(s[0]) then DropSpaces(s[1..]) else s
  }

  /** `s.replace(/^\s+/gm, "")`: every run of whitespace that starts a line
      is removed, blank lines included. `atLineStart` says whether `^` matches
      in front of `s[0]`. No line of the result starts with whitespace. */
  function StripIndent(s: string, atLineStart: bool): (r: string)
    decreases |s|
    ensures |r| <= |s|
    ensures atLineStart && r != [] ==> !IsSpace(r[0])
    ensures s != [] && !IsSpace(s[0]) ==> r != [] && r[0] == s[0]
    ensures forall k :: 0 <= k < |r| - 1 && IsLineTerminator(r[k]) ==> !IsSpace(r[k + 1])
  {
    if s == [] then []
    else if atLineStart && IsSpace(s[0]) then StripIndent(DropSpaces(s[1..]), false)
    else
      var rest := StripIndent(s[1..], IsLineTerminator(s[0]));
      assert forall k :: 1 <= k < |rest| + 1 ==> ([s[0]] + rest)[k] == rest[k - 1];
      [s[0]] + rest
  }
}
