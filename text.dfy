/** String operations on `seq<char>` that stand for the JavaScript string
    methods and the handful of regular-expression features the generator
    uses: multiline anchors, `\b`, `\s`, literal search, first-match and
    global replacement, `split` and `join`. */
module Text {
  import opened Results

  /** Characters after which a JavaScript multiline `^` matches. */
  predicate IsLineTerminator(c: char) {
    c == '\n' || c == '\r' || c == '\U{2028}' || c == '\U{2029}'
  }

  /** The class `\w` of a non-unicode JavaScript regular expression. */
  predicate IsWordChar(c: char) {
    ('a' <= c <= 'z') || ('A' <= c <= 'Z') || ('0' <= c <= '9') || c == '_'
  }

  /** The class `\s` of a JavaScript regular expression. */
  predicate IsSpace(c: char) {
    c == ' ' || c == '\t' || c == '\n' || c == '\U{000B}' || c == '\U{000C}' || c == '\r'
    || c == '\U{00A0}' || c == '\U{1680}' || ('\U{2000}' <= c <= '\U{200A}')
    || c == '\U{2028}' || c == '\U{2029}' || c == '\U{202F}' || c == '\U{205F}'
    || c == '\U{3000}' || c == '\U{FEFF}'
  }

  /** `toUpperCase` restricted to ASCII letters. */
  function UpperChar(c: char): (u: char)
    ensures ('a' <= c <= 'z') ==> 'A' <= u <= 'Z' && u as int == c as int - 32
    ensures !('a' <= c <= 'z') ==> u == c
  {
    if 'a' <= c <= 'z' then (c as int - 32) as char else c
  }

  /** `toLowerCase` restricted to ASCII letters. */
  function LowerChar(c: char): (l: char)
    ensures ('A' <= c <= 'Z') ==> 'a' <= l <= 'z' && l as int == c as int + 32
    ensures !('A' <= c <= 'Z') ==> l == c
  {
    if 'A' <= c <= 'Z' then (c as int + 32) as char else c
  }

  function LowerString(s: string): (r: string)
    ensures |r| == |s| && forall i :: 0 <= i < |s| ==> r[i] == LowerChar(s[i])
  {
    if s == [] then [] else [LowerChar(s[0])] + LowerString(s[1..])
  }

  /** A multiline `^` matches at position `i`. */
  predicate LineStart(s: string, i: nat) {
    i == 0 || (i <= |s| && IsLineTerminator(s[i - 1]))
  }

  /** A multiline `$` matches at position `i`. */
  predicate LineEnd(s: string, i: nat) {
    i == |s| || (i < |s| && IsLineTerminator(s[i]))
  }

  /** `\b` matches at position `i`. */
  predicate WordBoundary(s: string, i: nat)
    requires i <= |s|
  {
    (i > 0 && IsWordChar(s[i - 1])) != (i < |s| && IsWordChar(s[i]))
  }

  predicate StartsWith(s: string, p: string) {
    |p| <= |s| && s[..|p|] == p
  }

  predicate EndsWith(s: string, p: string) {
    |p| <= |s| && s[|s| - |p|..] == p
  }

  /** `p` occurs in `s` starting at index `i`. */
  predicate OccursAt(s: string, p: string, i: nat) {
    i + |p| <= |s| && s[i..i + |p|] == p
  }

  predicate Contains(s: string, p: string) {
    exists i: nat | i <= |s| :: OccursAt(s, p, i)
  }

  /** `i` is the leftmost occurrence of `p` in `s`. */
  predicate FirstOccurrence(s: string, p: string, i: nat) {
    OccursAt(s, p, i) && forall j: nat :: j < i ==> !OccursAt(s, p, j)
  }

  /** The leftmost occurrence of `p` at or after `from` (`indexOf(p, from)`). */
  function IndexFrom(s: string, p: string, from: nat): (r: Option<nat>)
    decreases |s| - from
    ensures r.Some? ==> from <= r.value && OccursAt(s, p, r.value)
    ensures r.Some? ==> forall j: nat :: from <= j < r.value ==> !OccursAt(s, p, j)
    ensures r.None? ==> forall j: nat :: from <= j ==> !OccursAt(s, p, j)
  {
    if from + |p| > |s| then None
    else if s[from..from + |p|] == p then Some(from)
    else IndexFrom(s, p, from + 1)
  }

  /** `s.indexOf(p)`, with `None` for -1. */
  function IndexOf(s: string, p: string): (r: Option<nat>)
    ensures r.Some? <==> Contains(s, p)
    ensures r.Some? ==> FirstOccurrence(s, p, r.value)
  {
    IndexFrom(s, p, 0)
  }

  /** `s.replace(p, rep)` with a literal pattern: only the leftmost occurrence. */
  function ReplaceFirst(s: string, p: string, rep: string): (r: string)
    ensures !Contains(s, p) ==> r == s
    ensures Contains(s, p) ==>
      exists i: nat :: FirstOccurrence(s, p, i) && r == s[..i] + rep + s[i + |p|..]
  {
    match IndexOf(s, p)
    case None => s
    case Some(i) => s[..i] + rep + s[i + |p|..]
  }

  /** Global replacement of a non-empty literal pattern, leftmost first and
      without overlaps (`s.replace(/p/g, rep)`). */
  function ReplaceAll(s: string, p: string, rep: string): (r: string)
    requires |p| > 0
    decreases |s|
    ensures !Contains(s, p) ==> r == s
  {
    match IndexOf(s, p)
    case None => s
    case Some(i) => s[..i] + (rep + ReplaceAll(s[i + |p|..], p, rep))
  }

  /** `String.prototype.count` (buildFromTernDefinition.js:38-47): the number of
      matches of the escaped, literal pattern. An empty pattern matches at
      every position, i.e. |s| + 1 times. */
  function Count(s: string, p: string): (n: nat)
    decreases |s|
    ensures |p| > 0 ==> (n > 0 <==> Contains(s, p))
    ensures |p| > 0 ==> n * |p| <= |s|
    ensures |p| == 0 ==> n == |s| + 1
  {
    if |p| == 0 then |s| + 1
    else match IndexOf(s, p)
      case None => 0
      case Some(i) =>
        var m := Count(s[i + |p|..], p);
        Distribute(m, |p|);
        1 + m
  }

  lemma Distribute(m: nat, k: nat)
    ensures (1 + m) * k == k + m * k
  {
  }

  function Join(sep: string, parts: seq<string>): string {
    if |parts| == 0 then ""
    else if |parts| == 1 then parts[0]
    else parts[0] + sep + Join(sep, parts[1..])
  }

  /** Joining one more part puts one more separator before it. */
  lemma {:induction false} JoinSnoc(sep: string, parts: seq<string>, d: string)
    requires parts != []
    decreases |parts|
    ensures Join(sep, parts + [d]) == Join(sep, parts) + sep + d
  {
    var all := parts + [d];
    assert all[0] == parts[0] && all[1..] == parts[1..] + [d];
    if |parts| > 1 {
      JoinSnoc(sep, parts[1..], d);
    }
  }

  /** `s.split(sep)` for a non-empty separator. */
  function Split(s: string, sep: string): (parts: seq<string>)
    requires |sep| > 0
    decreases |s|
    ensures |parts| >= 1
    ensures Join(sep, parts) == s
    ensures forall k :: 0 <= k < |parts| ==> !Contains(parts[k], sep)
  {
    match IndexOf(s, sep)
    case None => [s]
    case Some(i) =>
      var rest := Split(s[i + |sep|..], sep);
      NoOccurrenceInPrefix(s, sep, i);
      assert s == s[..i] + sep + s[i + |sep|..];
      [s[..i]] + rest
  }

  /** An occurrence inside `s[..i]` is an occurrence in `s`. */
  lemma NoOccurrenceInPrefix(s: string, p: string, i: nat)
    requires |p| > 0 && i <= |s|
    requires forall j: nat :: j < i ==> !OccursAt(s, p, j)
    ensures !Contains(s[..i], p)
  {
    forall j: nat | j <= i ensures !OccursAt(s[..i], p, j) {
      if j + |p| <= i {
        assert !OccursAt(s, p, j);
        assert s[..i][j..j + |p|] == s[j..j + |p|];
      }
    }
  }

  /** Splitting a joined list on a one-character separator gives the list back
      when no part contains that character. */
  lemma {:induction false} SplitJoin(parts: seq<string>, c: char)
    requires |parts| >= 1
    requires forall k :: 0 <= k < |parts| ==> c !in parts[k]
    ensures Split(Join([c], parts), [c]) == parts
  {
    var s := Join([c], parts);
    if |parts| == 1 {
      NoCharNoOccurrence(parts[0], c);
    } else {
      var tail := Join([c], parts[1..]);
      assert s == parts[0] + [c] + tail;
      var n := |parts[0]|;
      assert OccursAt(s, [c], n) by { assert s[n..n + 1] == [c]; }
      forall j: nat | j < n ensures !OccursAt(s, [c], j) {
        assert s[j] == parts[0][j];
        assert s[j..j + 1] == [s[j]];
      }
      assert IndexOf(s, [c]) == Some(n);
      assert s[n + 1..] == tail;
      assert s[..n] == parts[0];
      SplitJoin(parts[1..], c);
    }
  }

  lemma NoCharNoOccurrence(s: string, c: char)
    requires c !in s
    ensures !Contains(s, [c])
  {
    forall j: nat | j <= |s| ensures !OccursAt(s, [c], j) {
      if j + 1 <= |s| {
        assert s[j..j + 1] == [s[j]];
      }
    }
  }

  /** `s.replace(/^/gm, pre)`: `pre` at the start and after every line terminator. */
  function PrefixLines(s: string, pre: string): string {
    pre + PrefixAfterTerminators(s, pre)
  }

  function PrefixAfterTerminators(s: string, pre: string): string {
    if s == [] then []
    else if IsLineTerminator(s[0]) then [s[0]] + pre + PrefixAfterTerminators(s[1..], pre)
    else [s[0]] + PrefixAfterTerminators(s[1..], pre)
  }

  /** The inverse of `PrefixLines`: `None` when some line does not start with `pre`. */
  function StripLinePrefix(r: string, pre: string): Option<string> {
    if StartsWith(r, pre) then StripAfterTerminators(r[|pre|..], pre) else None
  }

  function StripAfterTerminators(r: string, pre: string): Option<string>
    decreases |r|
  {
    if r == [] then Some([])
    else if IsLineTerminator(r[0]) then
      if StartsWith(r[1..], pre) then
        match StripAfterTerminators(r[1 + |pre|..], pre)
        case None => None
        case Some(t) => Some([r[0]] + t)
      else None
    else
      match StripAfterTerminators(r[1..], pre)
      case None => None
      case Some(t) => Some([r[0]] + t)
  }

  /** Every line of `PrefixLines(s, pre)` starts with `pre`, and removing it
      from every line gives `s` back. */
  lemma PrefixLinesRoundTrip(s: string, pre: string)
    ensures StripLinePrefix(PrefixLines(s, pre), pre) == Some(s)
  {
    var r := PrefixLines(s, pre);
    assert r[..|pre|] == pre;
    assert r[|pre|..] == PrefixAfterTerminators(s, pre);
    StripAfterRoundTrip(s, pre);
  }

  lemma {:induction false} StripAfterRoundTrip(s: string, pre: string)
    ensures StripAfterTerminators(PrefixAfterTerminators(s, pre), pre) == Some(s)
  {
    if s != [] {
      var r := PrefixAfterTerminators(s, pre);
      var rest := PrefixAfterTerminators(s[1..], pre);
      StripAfterRoundTrip(s[1..], pre);
      if IsLineTerminator(s[0]) {
        assert r == [s[0]] + pre + rest;
        assert r[1..] == pre + rest;
        assert r[1..][..|pre|] == pre;
        assert r[1 + |pre|..] == rest;
      } else {
        assert r == [s[0]] + rest;
        assert r[1..] == rest;
      }
      assert [s[0]] + s[1..] == s;
    }
  }

  /** Position of the first `c` at or after `from`. */
  function CharFrom(s: string, c: char, from: nat): (r: Option<nat>)
    decreases |s| - from
    ensures r.Some? ==> from <= r.value < |s| && s[r.value] == c
    ensures r.Some? ==> forall j :: from <= j < r.value ==> s[j] != c
    ensures r.None? ==> forall j :: from <= j < |s| ==> s[j] != c
  {
    if from >= |s| then None
    else if s[from] == c then Some(from)
    else CharFrom(s, c, from + 1)
  }
}
