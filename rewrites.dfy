/** The regular-expression rewrites that processDescription
    (buildFromTernDefinition.js:280-426) applies to a signature and to its
    comment. Each pattern is written out as a function for that one pattern,
    with the titles and ignore-list names it embeds taken literally. */
module Rewrites {
  import opened Results
  import opened Text

  // ---------------------------------------------------------------------
  // Choosing the definition block (line 290).

  /** `(\([^)]*\))|:` at `q`: a colon, or an opening parenthesis that a later
      `)` closes. */
  predicate SignatureTail(s: string, q: nat) {
    q < |s| && (s[q] == ':' || (s[q] == '(' && CharFrom(s, ')', q + 1).Some?))
  }

  predicate DefinitionAt(s: string, title: string, p: nat) {
    LineStart(s, p) &&
    ((OccursAt(s, title, p) && SignatureTail(s, p + |title|)) ||
     (OccursAt(s, "static " + title, p) && SignatureTail(s, p + 7 + |title|)))
  }

  /** `^(?:static )?TITLE(?:(\([^)]*\))|:){1,2}` with the `m` flag matches
      somewhere in `s`; one repetition already decides the test. */
  predicate DefinesTitle(s: string, title: string) {
    exists p: nat | p <= |s| :: DefinitionAt(s, title, p)
  }

  // ---------------------------------------------------------------------
  // `: void` for functions without a result type (lines 296-304).

  /** `entry.split(".", 2)[0]`, compared with the structure title (line 298). */
  predicate AppliesTo(entry: string, title: string) {
    match CharFrom(entry, '.', 0)
    case None => true
    case Some(d) => entry[..d] == title
  }

  /** `entry.split(".", 2).pop()`: the part between the first and a second
      dot, or the whole entry when it has no dot. */
  function IgnoreName(entry: string): (r: string)
    ensures '.' !in entry ==> r == entry
    ensures '.' !in r
  {
    match CharFrom(entry, '.', 0)
    case None => entry
    case Some(d) =>
      var rest := entry[d + 1..];
      match CharFrom(rest, '.', 0)
      case None => rest
      case Some(e) => rest[..e]
  }

  /** Lines 297-299: the names of the ignore list that apply to the
      structure `title`, in list order. */
  function IgnoreList(entries: seq<string>, title: string): (r: seq<string>)
    ensures forall n :: n in r <==> exists e :: e in entries && AppliesTo(e, title) && IgnoreName(e) == n
  {
    if entries == [] then []
    else
      var rest := IgnoreList(entries[1..], title);
      assert forall e :: e in entries[1..] ==> e in entries;
      assert forall e :: e in entries ==> e == entries[0] || e in entries[1..];
      (if AppliesTo(entries[0], title) then [IgnoreName(entries[0])] else []) + rest
  }

  /** The lookbehind `(?<!\bA|\bB|…)` fails at `p`: some name ends at `p` and
      starts at a word boundary. An empty list yields the empty lookbehind
      `(?<!)`, which fails everywhere. */
  predicate Blocked(s: string, p: nat, ignore: seq<string>)
    requires p <= |s|
  {
    ignore == [] ||
    exists k :: 0 <= k < |ignore| && |ignore[k]| <= p && s[p - |ignore[k]|..p] == ignore[k] && WordBoundary(s, p - |ignore[k]|)
  }

  /** `\([^)]*\)$` (multiline) at `p`: the index of the first `)` after the
      `(`, when a line ends right after it. */
  function ParenGroupAt(s: string, p: nat): (r: Option<nat>)
    ensures r.Some? ==> p < r.value < |s| && s[p] == '(' && s[r.value] == ')' && LineEnd(s, r.value + 1)
    ensures r.Some? ==> forall k :: p < k < r.value ==> s[k] != ')'
  {
    if p < |s| && s[p] == '(' then
      match CharFrom(s, ')', p + 1)
      case None => None
      case Some(q) => if LineEnd(s, q + 1) then Some(q) else None
    else None
  }

  predicate VoidMatchAt(s: string, p: nat, ignore: seq<string>) {
    p < |s| && ParenGroupAt(s, p).Some? && !Blocked(s, p, ignore)
  }

  function VoidFrom(s: string, ignore: seq<string>, from: nat): (r: Option<nat>)
    decreases |s| - from
    ensures r.Some? ==> from <= r.value && VoidMatchAt(s, r.value, ignore)
    ensures r.Some? ==> forall j: nat :: from <= j < r.value ==> !VoidMatchAt(s, j, ignore)
    ensures r.None? ==> forall j: nat :: from <= j ==> !VoidMatchAt(s, j, ignore)
  {
    if from >= |s| then None
    else if VoidMatchAt(s, from, ignore) then Some(from)
    else VoidFrom(s, ignore, from + 1)
  }

  /** Lines 300-303: unless the list holds `*`, the leftmost `(…)` that ends a
      line and is not preceded by an ignored name gets `: void` after it;
      otherwise the code is unchanged. */
  function InsertVoid(code: string, ignore: seq<string>): (r: string)
    ensures "*" in ignore ==> r == code
    ensures r != code <==> "*" !in ignore && exists p: nat :: VoidMatchAt(code, p, ignore)
    ensures r != code ==> exists p: nat ::
      VoidMatchAt(code, p, ignore) && (forall j: nat :: j < p ==> !VoidMatchAt(code, j, ignore)) &&
      var q := ParenGroupAt(code, p).value;
      r == code[..q + 1] + ": void" + code[q + 1..]
  {
    if "*" in ignore then code
    else
      match VoidFrom(code, ignore, 0)
      case None => code
      case Some(p) =>
        var q := ParenGroupAt(code, p).value;
        var r := code[..q + 1] + ": void" + code[q + 1..];
        assert |r| > |code|;
        r
  }

  /** A `*` entry, or `Title.*` for this structure, switches the insertion
      off (ignoreFunctionsWithoutType.js:1-11). */
  lemma StarDisablesVoid(entries: seq<string>, title: string, code: string)
    requires '.' !in title
    requires "*" in entries || title + ".*" in entries
    ensures InsertVoid(code, IgnoreList(entries, title)) == code
  {
    if "*" in entries {
      assert AppliesTo("*", title) && IgnoreName("*") == "*";
    } else {
      var e := title + ".*";
      assert e[|title|] == '.';
      var d := CharFrom(e, '.', 0).value;
      assert d == |title|;
      assert e[..d] == title;
      assert e[d + 1..] == "*";
      assert IgnoreName(e) == "*";
    }
  }

  const ExampleIgnore: seq<string> := ["constructor", "importModule"]

  /** With the shipped list `["constructor", "importModule"]` a constructor
      keeps its bare signature. */
  lemma VoidSkipsConstructor()
    ensures InsertVoid("constructor()", ExampleIgnore) == "constructor()"
  {
    var c := "constructor()";
    assert |ExampleIgnore[0]| == 11 && c[0..11] == ExampleIgnore[0] && WordBoundary(c, 0);
    assert Blocked(c, 11, ExampleIgnore);
    assert VoidFrom(c, ExampleIgnore, 11) == VoidFrom(c, ExampleIgnore, 12);
    assert VoidFrom(c, ExampleIgnore, 10) == VoidFrom(c, ExampleIgnore, 11);
    assert VoidFrom(c, ExampleIgnore, 9) == VoidFrom(c, ExampleIgnore, 10);
    assert VoidFrom(c, ExampleIgnore, 8) == VoidFrom(c, ExampleIgnore, 9);
    assert VoidFrom(c, ExampleIgnore, 7) == VoidFrom(c, ExampleIgnore, 8);
    assert VoidFrom(c, ExampleIgnore, 6) == VoidFrom(c, ExampleIgnore, 7);
    assert VoidFrom(c, ExampleIgnore, 5) == VoidFrom(c, ExampleIgnore, 6);
    assert VoidFrom(c, ExampleIgnore, 4) == VoidFrom(c, ExampleIgnore, 5);
    assert VoidFrom(c, ExampleIgnore, 3) == VoidFrom(c, ExampleIgnore, 4);
    assert VoidFrom(c, ExampleIgnore, 2) == VoidFrom(c, ExampleIgnore, 3);
    assert VoidFrom(c, ExampleIgnore, 1) == VoidFrom(c, ExampleIgnore, 2);
    assert VoidFrom(c, ExampleIgnore, 0) == VoidFrom(c, ExampleIgnore, 1);
  }

  lemma ExampleVoidMatch()
    ensures VoidFrom("present()", ExampleIgnore, 0) == Some(7)
  {
    var a := "present()";
    assert CharFrom(a, ')', 8) == Some(8);
    assert ParenGroupAt(a, 7) == Some(8);
    assert !Blocked(a, 7, ExampleIgnore);
    assert VoidMatchAt(a, 7, ExampleIgnore);
    assert forall k :: 0 <= k < 7 ==> a[k] != '(';
  }

  /** ... while a method without a result type gains `: void`. */
  lemma VoidMarksMethod()
    ensures InsertVoid("present()", ExampleIgnore) == "present(): void"
  {
    var a := "present()";
    ExampleVoidMatch();
    assert ParenGroupAt(a, 7) == Some(8);
    assert "*" !in ExampleIgnore;
    assert a[..9] + ": void" + a[9..] == "present(): void";
  }

  // ---------------------------------------------------------------------
  // Globals from the documentation (lines 305-310).

  /** `(\([^)]*\))` at `q`. */
  predicate CallTail(s: string, q: nat) {
    q < |s| && s[q] == '(' && CharFrom(s, ')', q + 1).Some?
  }

  /** `^(?:static )?TITLE\([^)]*\):?` with the `m` flag matches somewhere. */
  predicate IsCallSignature(s: string, title: string) {
    exists p: nat | p <= |s| ::
      LineStart(s, p) &&
      ((OccursAt(s, title, p) && CallTail(s, p + |title|)) ||
       (OccursAt(s, "static " + title, p) && CallTail(s, p + 7 + |title|)))
  }

  /** Line 309: a global becomes `declare function …` when the code holds a
      call signature of its title, `declare var …` otherwise. */
  function DeclareGlobal(code: string, title: string): (r: string)
    ensures IsCallSignature(code, title) ==> r == "declare function " + code
    ensures !IsCallSignature(code, title) ==> r == "declare var " + code
  {
    "declare " + (if IsCallSignature(code, title) then "function" else "var") + " " + code
  }

  // ---------------------------------------------------------------------
  // Enumerations (lines 312-334).

  function Quote(v: string): string {
    "\"" + v + "\""
  }

  /** `obj.enum.map((i) => `"${i}"`).join(" | ")`. */
  function EnumUnion(values: seq<string>): string {
    Join(" | ", seq(|values|, i requires 0 <= i < |values| => Quote(values[i])))
  }

  /** Line 312: the substitution applies to a non-empty list and code that
      holds `: string`. */
  predicate EnumApplies(code: string, values: seq<string>) {
    |values| > 0 && Contains(code, ": string")
  }

  /** Line 322: only the leftmost `: string` becomes the union. */
  function ApplyEnum(code: string, values: seq<string>): (r: string)
    ensures !EnumApplies(code, values) ==> r == code
    ensures EnumApplies(code, values) ==> exists i: nat ::
      FirstOccurrence(code, ": string", i) && r == code[..i] + ": " + EnumUnion(values) + code[i + 8..]
  {
    if EnumApplies(code, values) then ReplaceFirst(code, ": string", ": " + EnumUnion(values)) else code
  }

  /** Lines 313-320: the warning is raised when `: string` occurs more than once. */
  predicate EnumWarning(code: string, values: seq<string>) {
    EnumApplies(code, values) && Count(code, ": string") > 1
  }

  /** More than one match of `count` means that the pattern occurs again
      after its first occurrence, so the warning fires exactly for a second
      `: string`. */
  lemma CountAboveOne(s: string, p: string)
    requires |p| > 0
    ensures Count(s, p) > 1 <==> IndexOf(s, p).Some? && Contains(s[IndexOf(s, p).value + |p|..], p)
  {
    match IndexOf(s, p)
    case None =>
    case Some(i) =>
      assert Count(s, p) == 1 + Count(s[i + |p|..], p);
  }

  // ---------------------------------------------------------------------
  // Interface and map signatures (lines 413-419).

  predicate WholeWordAt(s: string, w: string, p: nat) {
    OccursAt(s, w, p) && WordBoundary(s, p) && WordBoundary(s, p + |w|)
  }

  function WholeWordFrom(s: string, w: string, from: nat): (r: Option<nat>)
    decreases |s| - from
    ensures r.Some? ==> from <= r.value && WholeWordAt(s, w, r.value)
    ensures r.Some? ==> forall j: nat :: from <= j < r.value ==> !WholeWordAt(s, w, j)
    ensures r.None? ==> forall j: nat :: from <= j ==> !WholeWordAt(s, w, j)
  {
    if from + |w| > |s| then None
    else if WholeWordAt(s, w, from) then Some(from)
    else WholeWordFrom(s, w, from + 1)
  }

  /** `s.replace(/\bW\b/, rep)`: the leftmost whole-word occurrence only. */
  function ReplaceWholeWord(s: string, w: string, rep: string): (r: string)
    ensures (forall j: nat :: !WholeWordAt(s, w, j)) ==> r == s
    ensures forall j: nat :: WholeWordAt(s, w, j) ==> exists i: nat ::
      i <= j && WholeWordAt(s, w, i) && (forall k: nat :: k < i ==> !WholeWordAt(s, w, k)) &&
      r == s[..i] + rep + s[i + |w|..]
  {
    match WholeWordFrom(s, w, 0)
    case None => s
    case Some(i) => s[..i] + rep + s[i + |w|..]
  }

  const MapHead: string := "{string: "

  /** The lazy part `\b.*?\b\}` from `q`: the first `}` right after a word
      character, reached without crossing a line terminator. */
  function LazyClose(s: string, q: nat): (r: Option<nat>)
    requires q > 0
    decreases |s| - q
    ensures r.Some? ==> q <= r.value && BraceAfterWord(s, r.value)
    ensures r.Some? ==> forall k :: q <= k < r.value ==> !IsLineTerminator(s[k])
    ensures r.Some? ==> forall k :: q <= k < r.value ==> !BraceAfterWord(s, k)
  {
    if q >= |s| || IsLineTerminator(s[q]) then None
    else if BraceAfterWord(s, q) then Some(q)
    else LazyClose(s, q + 1)
  }

  /** `\b\}` at `k`: a closing brace right after a word character. */
  predicate BraceAfterWord(s: string, k: nat)
  {
    0 < k < |s| && s[k] == '}' && IsWordChar(s[k - 1])
  }

  /** `\{string: \b.*?\b\}` at `p`: the index of the closing brace. */
  function MapSignatureAt(s: string, p: nat): (r: Option<nat>)
    ensures r.Some? ==> OccursAt(s, MapHead, p) && p + 9 < r.value < |s| && IsWordChar(s[p + 9]) && s[r.value] == '}'
  {
    if OccursAt(s, MapHead, p) && p + 9 < |s| && IsWordChar(s[p + 9]) then LazyClose(s, p + 10) else None
  }

  function MapSignatureFrom(s: string, from: nat): (r: Option<nat>)
    decreases |s| - from
    ensures r.Some? ==> from <= r.value && MapSignatureAt(s, r.value).Some?
    ensures r.Some? ==> forall j: nat :: from <= j < r.value ==> MapSignatureAt(s, j).None?
    ensures r.None? ==> forall j: nat :: from <= j ==> MapSignatureAt(s, j).None?
  {
    if from >= |s| then None
    else if MapSignatureAt(s, from).Some? then Some(from)
    else MapSignatureFrom(s, from + 1)
  }

  /** `s.replace(/\{string: \b.*?\b\}/, rep)`; `ReplaceMapSignatureFirst`
      states which occurrence it replaces. */
  function ReplaceMapSignature(s: string, rep: string): string
  {
    match MapSignatureFrom(s, 0)
    case None => s
    case Some(i) => s[..i] + rep + s[MapSignatureAt(s, i).value + 1..]
  }

  /** `i` is the leftmost occurrence of the map signature in `s`. */
  predicate LeftmostMapSignature(s: string, i: nat)
  {
    MapSignatureAt(s, i).Some? && forall k: nat :: k < i ==> MapSignatureAt(s, k).None?
  }

  /** Without an occurrence of the map signature the string is unchanged. */
  lemma ReplaceMapSignatureNone(s: string, rep: string)
    ensures (forall j: nat :: MapSignatureAt(s, j).None?) ==> ReplaceMapSignature(s, rep) == s
  {
    if MapSignatureFrom(s, 0).Some? {
      MapSignatureLeftmost(s, rep, MapSignatureFrom(s, 0).value);
    }
  }

  /** With an occurrence, the leftmost one, through its closing brace,
      becomes `rep`. */
  lemma ReplaceMapSignatureFirst(s: string, rep: string)
    ensures forall j: nat :: MapSignatureAt(s, j).Some? ==> exists i: nat ::
      i <= j && LeftmostMapSignature(s, i) &&
      ReplaceMapSignature(s, rep) == s[..i] + rep + s[MapSignatureAt(s, i).value + 1..]
  {
    var m := MapSignatureFrom(s, 0);
    if m.Some? {
      var i := m.value;
      MapSignatureLeftmost(s, rep, i);
      forall j: nat | MapSignatureAt(s, j).Some?
        ensures exists i: nat ::
          i <= j && LeftmostMapSignature(s, i) &&
          ReplaceMapSignature(s, rep) == s[..i] + rep + s[MapSignatureAt(s, i).value + 1..]
      {
        assert i <= j && LeftmostMapSignature(s, i);
      }
    }
  }

  /** What `ReplaceMapSignature` does once the leftmost occurrence `i` is known. */
  lemma MapSignatureLeftmost(s: string, rep: string, i: nat)
    requires MapSignatureFrom(s, 0) == Some(i)
    ensures MapSignatureAt(s, i).Some?
    ensures forall j: nat :: MapSignatureAt(s, j).Some? ==>
      i <= j && LeftmostMapSignature(s, i) &&
      ReplaceMapSignature(s, rep) == s[..i] + rep + s[MapSignatureAt(s, i).value + 1..]
  {
  }

  const MapLiteral: string := "{string: string}"
  const IndexSignature: string := "{[key: string]: string}"

  /** Joining two strings without the pattern creates none when no
      occurrence can straddle the seam. */
  lemma NoOccurrenceConcat(a: string, b: string, p: string)
    requires !Contains(a, p) && !Contains(b, p)
    requires forall j: nat :: j < |a| < j + |p| ==> !OccursAt(a + b, p, j)
    ensures !Contains(a + b, p)
  {
    forall j: nat | j <= |a + b| ensures !OccursAt(a + b, p, j) {
      if j + |p| <= |a| {
        assert (a + b)[j..j + |p|] == a[j..j + |p|];
        assert !OccursAt(a, p, j);
      } else if |a| <= j && j + |p| <= |a + b| {
        assert (a + b)[j..j + |p|] == b[j - |a|..j - |a| + |p|];
        assert !OccursAt(b, p, j - |a|);
      }
    }
  }

  /** The character `p[0]` marks every possible start of `p`. */
  predicate LeadsOnlyAtStart(p: string) {
    |p| >= 2 && forall k :: 0 < k < |p| ==> p[k] != p[0]
  }

  /** A replacement that starts like `p`, never again contains `p[0]` and
      differs from `p` at its second character. */
  predicate SafeReplacement(p: string, rep: string) {
    LeadsOnlyAtStart(p) && |rep| >= 2 && rep[0] == p[0] && rep[1] != p[1] &&
    forall k :: 0 < k < |rep| ==> rep[k] != p[0]
  }

  /** The replacement followed by a string without `p` holds no `p`. */
  lemma ReplacementFront(rep: string, rest: string, p: string)
    requires SafeReplacement(p, rep) && !Contains(rest, p)
    ensures !Contains(rep + rest, p)
  {
    var tail := rep + rest;
    forall j: nat | j <= |rep| ensures !OccursAt(rep, p, j) {
      if j + |p| <= |rep| {
        if j == 0 { assert rep[1] != p[1]; } else { assert rep[j] != p[0]; }
      }
    }
    forall j: nat | j < |rep| < j + |p| ensures !OccursAt(tail, p, j) {
      if j + |p| <= |tail| {
        if j == 0 { assert tail[1] == rep[1]; } else { assert tail[j] == rep[j]; }
      }
    }
    NoOccurrenceConcat(rep, rest, p);
  }

  /** No occurrence of `p` straddles a seam followed by `p[0]`. */
  lemma SeamBeforeLead(pre: string, tail: string, p: string)
    requires LeadsOnlyAtStart(p) && tail != [] && tail[0] == p[0]
    requires !Contains(pre, p) && !Contains(tail, p)
    ensures !Contains(pre + tail, p)
  {
    forall j: nat | j < |pre| < j + |p| ensures !OccursAt(pre + tail, p, j) {
      if j + |p| <= |pre + tail| {
        assert (pre + tail)[|pre|] == p[0];
        assert p[|pre| - j] != p[0];
      }
    }
    NoOccurrenceConcat(pre, tail, p);
  }

  lemma {:induction false} ReplaceAllRemoves(s: string, p: string, rep: string)
    requires SafeReplacement(p, rep)
    decreases |s|
    ensures !Contains(ReplaceAll(s, p, rep), p)
  {
    match IndexOf(s, p)
    case None =>
    case Some(i) =>
      ReplaceAllUnfold(s, p, rep, i);
      ReplaceAllRemoves(s[i + |p|..], p, rep);
      NoOccurrenceInPrefix(s, p, i);
      ReplaceAllStep(s[..i], rep, ReplaceAll(s[i + |p|..], p, rep), p);
  }

  /** The global replace at its leftmost occurrence. */
  lemma ReplaceAllUnfold(s: string, p: string, rep: string, i: nat)
    requires |p| > 0 && IndexOf(s, p) == Some(i)
    ensures i + |p| <= |s| && ReplaceAll(s, p, rep) == s[..i] + (rep + ReplaceAll(s[i + |p|..], p, rep))
  {
  }

  /** One step of ReplaceAllRemoves: the text before the leftmost occurrence,
      the replacement and a rest free of `p` hold no `p` together. */
  lemma ReplaceAllStep(pre: string, rep: string, rest: string, p: string)
    requires SafeReplacement(p, rep) && !Contains(pre, p) && !Contains(rest, p)
    ensures !Contains(pre + (rep + rest), p)
  {
    ReplacementFront(rep, rest, p);
    assert (rep + rest)[0] == p[0];
    SeamBeforeLead(pre, rep + rest, p);
  }

  /** Line 418: after the global rewrite of the comment no `{string: string}`
      is left. */
  lemma MapLiteralGone(s: string)
    ensures !Contains(ReplaceAll(s, MapLiteral, IndexSignature), MapLiteral)
  {
    assert SafeReplacement(MapLiteral, IndexSignature);
    ReplaceAllRemoves(s, MapLiteral, IndexSignature);
  }

  // ---------------------------------------------------------------------
  // The comment rewrite of line 366.

  /** `\[email\sprotected\]` at `i`. */
  predicate EmailAt(s: string, i: nat) {
    i + 17 <= |s| && s[i..i + 6] == "[email" && IsSpace(s[i + 6]) && s[i + 7..i + 17] == "protected]"
  }

  /** `s.replace(/\[email\sprotected\]/g, "my@example.com")`. */
  function ReplaceEmail(s: string): (r: string)
    decreases |s|
    ensures (forall i: nat :: !EmailAt(s, i)) ==> r == s
  {
    if s == [] then []
    else if EmailAt(s, 0) then "my@example.com" + ReplaceEmail(s[17..])
    else
      assert forall i: nat :: EmailAt(s[1..], i) ==> EmailAt(s, i + 1) by {
        forall i: nat | EmailAt(s[1..], i) ensures EmailAt(s, i + 1) {
          assert s[1..][i..i + 6] == s[i + 1..i + 7];
          assert s[1..][i + 7..i + 17] == s[i + 8..i + 18];
        }
      }
      [s[0]] + ReplaceEmail(s[1..])
  }

  /** An occurrence after the first `|a|` characters of `a + b` is one of `b`. */
  lemma EmailShift(a: string, b: string, i: nat)
    requires |a| <= i
    ensures EmailAt(a + b, i) ==> EmailAt(b, i - |a|)
  {
    if EmailAt(a + b, i) {
      var j := i - |a|;
      assert (a + b)[i..i + 6] == b[j..j + 6];
      assert (a + b)[i + 7..i + 17] == b[j + 7..j + 17];
    }
  }

  /** No `m` followed by `y`, nor a trailing `m`: text that cannot come out
      of a replacement in front. */
  predicate NoMy(p: string) {
    forall k :: 0 <= k < |p| && p[k] == 'm' ==> k + 1 < |p| && p[k + 1] != 'y'
  }

  /** A prefix of the rewritten text that no replacement could have written
      is a prefix of the original. */
  lemma {:induction false} EmailPrefixCopied(t: string, p: string)
    requires |p| <= |ReplaceEmail(t)| && ReplaceEmail(t)[..|p|] == p
    requires NoMy(p)
    decreases |t|
    ensures |p| <= |t| && t[..|p|] == p
  {
    if p != [] {
      var r := ReplaceEmail(t);
      assert !EmailAt(t, 0) by {
        assert p[0] == r[0];
        assert |p| >= 2 ==> p[1] == r[1];
      }
      {
        var rest := ReplaceEmail(t[1..]);
        assert r == [t[0]] + rest;
        var q := p[1..];
        assert rest[..|q|] == r[1..|p|];
        assert NoMy(q) by {
          forall k | 0 <= k < |q| && q[k] == 'm' ensures k + 1 < |q| && q[k + 1] != 'y' {
            assert p[k + 1] == 'm';
          }
        }
        EmailPrefixCopied(t[1..], q);
        assert t[..|p|] == [t[0]] + t[1..][..|q|];
      }
    }
  }

  /** The step of EmailReplaced where an address opens the text. */
  lemma EmailReplacedFront(s: string)
    requires EmailAt(s, 0)
    requires forall i: nat :: !EmailAt(ReplaceEmail(s[17..]), i)
    ensures forall i: nat :: !EmailAt(ReplaceEmail(s), i)
  {
    var rest := ReplaceEmail(s[17..]);
    var mine := "my@example.com";
    assert ReplaceEmail(s) == mine + rest;
    assert '[' !in mine;
    forall i: nat ensures !EmailAt(mine + rest, i) {
      if i < |mine| {
        if i + 6 <= |mine + rest| {
          assert (mine + rest)[i..i + 6][0] == mine[i];
        }
      } else {
        EmailShift(mine, rest, i);
      }
    }
  }

  /** What follows the `[` of an address has no `my` in it. */
  lemma EmailBodyNoMy(r: string)
    requires EmailAt(r, 0)
    ensures NoMy(r[1..17])
  {
    var p := r[1..17];
    assert p[..5] == r[0..6][1..];
    assert p[6..] == r[7..17];
    assert p[5] == r[6];
    forall k | 0 <= k < 16 && p[k] == 'm' ensures k + 1 < 16 && p[k + 1] != 'y' {
      if k < 5 {
        assert p[..5][k] == p[k];
      }
    }
  }

  /** A copied first character never starts an address in the result. */
  lemma EmailNotCreated(s: string)
    requires s != [] && !EmailAt(s, 0)
    ensures !EmailAt(ReplaceEmail(s), 0)
  {
    var rest := ReplaceEmail(s[1..]);
    var r := [s[0]] + rest;
    assert ReplaceEmail(s) == r;
    if EmailAt(r, 0) {
      EmailBodyNoMy(r);
      assert rest[..16] == r[1..17];
      EmailPrefixCopied(s[1..], r[1..17]);
      assert s[..17] == [s[0]] + s[1..][..16];
      EmailAtFront(s, r);
      assert false;
    }
  }

  /** Whether an address opens the text depends on its first 17 characters. */
  lemma EmailAtFront(a: string, b: string)
    requires 17 <= |a| && 17 <= |b| && a[..17] == b[..17]
    ensures EmailAt(a, 0) == EmailAt(b, 0)
  {
    assert a[0..6] == a[..17][0..6] && b[0..6] == b[..17][0..6];
    assert a[7..17] == a[..17][7..17] && b[7..17] == b[..17][7..17];
    assert a[6] == a[..17][6] && b[6] == b[..17][6];
  }

  /** The step of EmailReplaced where the first character is copied. */
  lemma EmailReplacedCopy(s: string)
    requires s != [] && !EmailAt(s, 0)
    requires forall i: nat :: !EmailAt(ReplaceEmail(s[1..]), i)
    ensures forall i: nat :: !EmailAt(ReplaceEmail(s), i)
  {
    var rest := ReplaceEmail(s[1..]);
    assert ReplaceEmail(s) == [s[0]] + rest;
    EmailNotCreated(s);
    forall i: nat | i > 0 ensures !EmailAt([s[0]] + rest, i) {
      EmailShift([s[0]], rest, i);
    }
  }

  /** Line 366 with `/g`: every address is replaced, so none remains; the
      text changes exactly when it holds one, and it never grows. */
  lemma {:induction false} EmailReplaced(s: string)
    decreases |s|
    ensures forall i: nat :: !EmailAt(ReplaceEmail(s), i)
    ensures ReplaceEmail(s) == s <==> forall i: nat :: !EmailAt(s, i)
    ensures |ReplaceEmail(s)| <= |s|
  {
    if s != [] {
      if EmailAt(s, 0) {
        EmailReplaced(s[17..]);
        EmailReplacedFront(s);
        assert |ReplaceEmail(s)| == 14 + |ReplaceEmail(s[17..])|;
      } else {
        EmailReplaced(s[1..]);
        EmailReplacedCopy(s);
      }
    }
  }

  // ---------------------------------------------------------------------
  // The final rewrites (lines 424-425).

  /** `\[([^\]]+)\]` at the start of `s`: the index of the closing bracket. */
  function BracketClose(s: string): (r: Option<nat>)
    ensures r.Some? ==> 1 < r.value < |s| && s[0] == '[' && s[r.value] == ']'
    ensures r.Some? ==> forall k :: 1 <= k < r.value ==> s[k] != ']'
    ensures r.None? && |s| >= 2 && s[0] == '[' ==> s[1] == ']' || forall k :: 1 <= k < |s| ==> s[k] != ']'
  {
    if |s| >= 2 && s[0] == '[' then
      match CharFrom(s, ']', 1)
      case None => None
      case Some(q) => if q > 1 then Some(q) else None
    else None
  }

  /** `s.replace(/(?<!\{)\[([^\]]+)\]/g, "$1[]")`; `afterBrace` says whether the
      character before `s` is `{`. */
  function ArrayRewrite(s: string, afterBrace: bool): (r: string)
    decreases |s|
  {
    if s == [] then []
    else if s[0] == '[' && !afterBrace && BracketClose(s).Some? then
      var q := BracketClose(s).value;
      s[1..q] + ("[]" + ArrayRewrite(s[q + 1..], false))
    else [s[0]] + ArrayRewrite(s[1..], s[0] == '{')
  }

  /** No `[` is followed by another `[` before a `]` closes it. */
  predicate Flat(s: string) {
    forall i, j :: 0 <= i < j < |s| && s[i] == '[' && s[j] == '[' ==> exists k :: i < k < j && s[k] == ']'
  }

  lemma FlatSuffix(s: string, n: nat)
    requires Flat(s) && n <= |s|
    ensures Flat(s[n..])
  {
    forall i, j | 0 <= i < j < |s[n..]| && s[n..][i] == '[' && s[n..][j] == '['
      ensures exists k :: i < k < j && s[n..][k] == ']'
    {
      var k :| n + i < k < n + j && s[k] == ']';
      assert s[n..][k - n] == ']';
    }
  }

  /** Text without `[` is copied unchanged. */
  lemma {:induction false} ArrayCopies(t: string, u: string, b: bool)
    requires '[' !in t
    decreases |t|
    ensures ArrayRewrite(t + u, b) == t + ArrayRewrite(u, if t == [] then b else t[|t| - 1] == '{')
  {
    if t != [] {
      assert (t + u)[1..] == t[1..] + u;
      ArrayCopies(t[1..], u, t[0] == '{');
    } else {
      assert t + u == u;
    }
  }

  /** Without `]` nothing matches. */
  lemma {:induction false} ArrayNoClose(s: string, b: bool)
    requires ']' !in s
    decreases |s|
    ensures ArrayRewrite(s, b) == s
  {
    if s != [] {
      ArrayNoClose(s[1..], s[0] == '{');
    }
  }

  /** Inside a match `[T]` of a flat string, `T` holds no `[`. */
  lemma MatchBodyFlat(s: string, q: nat)
    requires Flat(s) && BracketClose(s) == Some(q)
    ensures '[' !in s[1..q]
  {
    forall k | 0 <= k < q - 1 ensures s[1..q][k] != '[' {
      assert s[1..q][k] == s[k + 1];
    }
  }

  /** A produced `[]` is not matched again. */
  lemma EmptyPairStays(w: string, c: bool)
    ensures ArrayRewrite("[]" + w, c) == "[]" + ArrayRewrite(w, false)
  {
    var u := "[]" + w;
    assert BracketClose(u).None?;
    assert u[1..] == "]" + w;
    assert ("]" + w)[1..] == w;
  }

  /** A match `[T]` becomes `T[]`, and a second pass copies `T[]` and
      rewrites only what follows. */
  lemma ArrayMatchCase(s: string, q: nat)
    requires BracketClose(s) == Some(q) && Flat(s)
    ensures ArrayRewrite(s, false) == s[1..q] + ("[]" + ArrayRewrite(s[q + 1..], false))
    ensures ArrayRewrite(ArrayRewrite(s, false), false)
         == s[1..q] + ("[]" + ArrayRewrite(ArrayRewrite(s[q + 1..], false), false))
  {
    var t := s[1..q];
    var w := ArrayRewrite(s[q + 1..], false);
    var out := t + ("[]" + w);
    MatchBodyFlat(s, q);
    ArrayCopies(t, "[]" + w, false);
    var c := t[|t| - 1] == '{';
    assert ArrayRewrite(out, false) == t + ArrayRewrite("[]" + w, c);
    EmptyPairStays(w, c);
    assert ArrayRewrite(s, false) == out;
  }

  lemma ArrayOtherCase(s: string, b: bool)
    requires s != [] && !(s[0] == '[' && !b && BracketClose(s).Some?)
    requires ArrayRewrite(ArrayRewrite(s[1..], s[0] == '{'), s[0] == '{') == ArrayRewrite(s[1..], s[0] == '{')
    ensures ArrayRewrite(ArrayRewrite(s, b), b) == ArrayRewrite(s, b)
  {
    var c := s[0] == '{';
    var w := ArrayRewrite(s[1..], c);
    var out := ArrayRewrite(s, b);
    assert out == [s[0]] + w;
    assert out[1..] == w;
    if s[0] == '[' && !b {
      if |s| >= 2 && s[1] == ']' {
        assert w == "]" + ArrayRewrite(s[2..], false);
        assert out[1] == ']';
      } else if |s| >= 2 {
        ArrayNoClose(s[1..], false);
        assert CharFrom(out, ']', 1).None?;
      }
      assert BracketClose(out).None?;
    }
  }

  /** Line 424 leaves its own output unchanged when brackets are not nested. */
  lemma {:induction false} ArrayRewriteIdempotent(s: string, b: bool)
    requires Flat(s)
    decreases |s|
    ensures ArrayRewrite(ArrayRewrite(s, b), b) == ArrayRewrite(s, b)
  {
    if s == [] {
    } else if s[0] == '[' && !b && BracketClose(s).Some? {
      var q := BracketClose(s).value;
      FlatSuffix(s, q + 1);
      ArrayRewriteIdempotent(s[q + 1..], false);
      ArrayMatchCase(s, q);
      assert b == false;
    } else {
      FlatSuffix(s, 1);
      ArrayRewriteIdempotent(s[1..], s[0] == '{');
      ArrayOtherCase(s, b);
    }
  }

  /** `\bbool\b` with the `i` flag at the start of `s`, given whether the
      character before `s` is a word character. */
  predicate BoolAt(s: string, prevWord: bool) {
    !prevWord && |s| >= 4 && LowerString(s[..4]) == "bool" && (|s| == 4 || !IsWordChar(s[4]))
  }

  /** `s.replace(/\bbool\b/gi, "$&ean")`: each whole-word `bool`, in any case,
      keeps its letters and gains `ean`. */
  function BoolRewrite(s: string, prevWord: bool): (r: string)
    decreases |s|
  {
    if s == [] then []
    else if BoolAt(s, prevWord) then s[..4] + "ean" + BoolRewrite(s[4..], true)
    else [s[0]] + BoolRewrite(s[1..], IsWordChar(s[0]))
  }

  /** Text without a `b` holds no `bool` in any case and is left alone. */
  lemma {:induction false} BoolPlain(s: string, b: bool)
    requires 'b' !in s && 'B' !in s
    decreases |s|
    ensures BoolRewrite(s, b) == s
  {
    if s != [] {
      if |s| >= 4 {
        assert LowerString(s[..4])[0] == LowerChar(s[0]);
      }
      BoolPlain(s[1..], IsWordChar(s[0]));
    }
  }

  /** The first four characters survive the rewrite. */
  lemma {:induction false} BoolKeepsPrefix(s: string, b: bool)
    decreases |s|
    ensures |s| < 4 ==> BoolRewrite(s, b) == s
    ensures |s| >= 4 ==> |BoolRewrite(s, b)| >= 4 && BoolRewrite(s, b)[..4] == s[..4]
  {
    if s != [] && !BoolAt(s, b) {
      var w := BoolRewrite(s[1..], IsWordChar(s[0]));
      BoolKeepsPrefix(s[1..], IsWordChar(s[0]));
      assert BoolRewrite(s, b) == [s[0]] + w;
      if |s| >= 5 {
        assert w[..3] == w[..4][..3] == s[1..4];
      } else {
        assert w == s[1..];
      }
      if |s| >= 4 {
        assert ([s[0]] + w)[..4] == [s[0]] + w[..3];
      }
    } else if s != [] {
      assert BoolRewrite(s, b)[..4] == s[..4];
    }
  }

  /** A run of word characters after a word character is copied. */
  lemma {:induction false} BoolCopiesWord(w: string, u: string)
    requires forall k :: 0 <= k < |w| ==> IsWordChar(w[k])
    decreases |w|
    ensures BoolRewrite(w + u, true) == w + BoolRewrite(u, true)
  {
    if w != [] {
      assert (w + u)[1..] == w[1..] + u;
      BoolCopiesWord(w[1..], u);
    } else {
      assert w + u == u;
    }
  }

  lemma BoolMatchCase(s: string, b: bool)
    requires BoolAt(s, b)
    requires BoolRewrite(BoolRewrite(s[4..], true), true) == BoolRewrite(s[4..], true)
    ensures BoolRewrite(BoolRewrite(s, b), b) == BoolRewrite(s, b)
  {
    var w := BoolRewrite(s[4..], true);
    var out := s[..4] + "ean" + w;
    assert BoolRewrite(s, b) == out;
    assert out[4] == 'e';
    assert !BoolAt(out, b);
    var low := LowerString(s[..4]);
    assert low[0] == 'b' && low[1] == 'o' && low[2] == 'o' && low[3] == 'l';
    assert IsWordChar(s[0]);
    var word := s[1..4] + "ean";
    assert forall k :: 0 <= k < |word| ==> IsWordChar(word[k]);
    assert out[1..] == word + w;
    BoolCopiesWord(word, w);
  }

  lemma BoolOtherCase(s: string, b: bool)
    requires s != [] && !BoolAt(s, b)
    requires BoolRewrite(BoolRewrite(s[1..], IsWordChar(s[0])), IsWordChar(s[0])) == BoolRewrite(s[1..], IsWordChar(s[0]))
    ensures BoolRewrite(BoolRewrite(s, b), b) == BoolRewrite(s, b)
  {
    var c := IsWordChar(s[0]);
    BoolKeepsPrefix(s[1..], c);
    var w := BoolRewrite(s[1..], c);
    var out := BoolRewrite(s, b);
    assert out == [s[0]] + w;
    if |s| >= 5 {
      assert w[..4] == s[1..5];
      assert forall k :: 1 <= k < 5 ==> out[k] == w[..4][k - 1] == s[k];
      assert out[..4] == s[..4];
    } else {
      assert w == s[1..];
      assert out == s;
    }
    assert !BoolAt(out, b);
    assert out[1..] == w;
  }

  /** Line 425 leaves its own output unchanged: `boolean` is never a whole-word `bool`. */
  lemma {:induction false} BoolRewriteIdempotent(s: string, b: bool)
    decreases |s|
    ensures BoolRewrite(BoolRewrite(s, b), b) == BoolRewrite(s, b)
  {
    if s == [] {
    } else if BoolAt(s, b) {
      BoolRewriteIdempotent(s[4..], true);
      BoolMatchCase(s, b);
    } else {
      BoolRewriteIdempotent(s[1..], IsWordChar(s[0]));
      BoolOtherCase(s, b);
    }
  }
}
