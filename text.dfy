/** The Python `str` operations the scripts are built from: whitespace
    stripping, case mapping, prefix and substring tests, `split`, `join`,
    `splitlines` and decimal rendering of integers. */
module Text {

  datatype Option<T> = None | Some(value: T) {
    function GetOr(default: T): T {
      match this
      case Some(v) => v
      case None => default
    }
  }

  /** Python's `str.isspace()`: the characters that `strip()`, `split()`
      and the `\s` regular-expression class treat as white space. */
  predicate IsSpace(c: char) {
    || c == ' '
    || ('\t' <= c <= '\r')
    || ('\U{1c}' <= c <= '\U{1f}')
    || c == '\U{85}' || c == '\U{a0}' || c == '\U{1680}'
    || ('\U{2000}' <= c <= '\U{200a}')
    || c == '\U{2028}' || c == '\U{2029}' || c == '\U{202f}'
    || c == '\U{205f}' || c == '\U{3000}'
  }

  predicate IsDigit(c: char) {
    '0' <= c <= '9'
  }

  predicate NoSpace(s: string) {
    forall i :: 0 <= i < |s| ==> !IsSpace(s[i])
  }

  // ---------------------------------------------------------------------
  // Case mapping (ASCII letters only)

  function LowerChar(c: char): char {
    if 'A' <= c <= 'Z' then (c as int + 32) as char else c
  }

  function UpperChar(c: char): char {
    if 'a' <= c <= 'z' then (c as int - 32) as char else c
  }

  function Lower(s: string): (r: string)
    ensures |r| == |s|
    ensures forall i :: 0 <= i < |s| ==> r[i] == LowerChar(s[i])
  {
    seq(|s|, i requires 0 <= i < |s| => LowerChar(s[i]))
  }

  function Upper(s: string): (r: string)
    ensures |r| == |s|
    ensures forall i :: 0 <= i < |s| ==> r[i] == UpperChar(s[i])
  {
    seq(|s|, i requires 0 <= i < |s| => UpperChar(s[i]))
  }

  predicate IsLower(s: string) {
    forall i :: 0 <= i < |s| ==> !('A' <= s[i] <= 'Z')
  }

  lemma LowerIsLower(s: string)
    ensures IsLower(Lower(s))
    ensures Lower(Lower(s)) == Lower(s)
  {
  }

  // ---------------------------------------------------------------------
  // Prefixes and substrings

  predicate StartsWith(s: string, prefix: string) {
    |prefix| <= |s| && s[..|prefix|] == prefix
  }

  predicate OccursAt(s: string, sub: string, i: int) {
    0 <= i && i + |sub| <= |s| && s[i..i + |sub|] == sub
  }

  /** The first index at or after `from` where `sub` occurs. */
  function IndexFrom(s: string, sub: string, from: nat): Option<nat>
    requires from <= |s|
    decreases |s| - from
  {
    if from + |sub| > |s| then None
    else if s[from..from + |sub|] == sub then Some(from)
    else if from == |s| then None
    else IndexFrom(s, sub, from + 1)
  }

  lemma {:induction false} IndexFromSpec(s: string, sub: string, from: nat)
    requires from <= |s|
    ensures var r := IndexFrom(s, sub, from);
      && (r.Some? ==> from <= r.value && OccursAt(s, sub, r.value))
      && (r.Some? ==> forall j :: from <= j < r.value ==> !OccursAt(s, sub, j))
      && (r.None? ==> forall j :: from <= j ==> !OccursAt(s, sub, j))
    decreases |s| - from
  {
    if from + |sub| <= |s| && s[from..from + |sub|] != sub && from < |s| {
      IndexFromSpec(s, sub, from + 1);
    }
  }

  /** `str.find(sub)`, with None for -1. */
  function IndexOf(s: string, sub: string): Option<nat> {
    IndexFrom(s, sub, 0)
  }

  /** IndexOf finds the first occurrence, and None means there is none. */
  lemma IndexOfSpec(s: string, sub: string)
    ensures var r := IndexOf(s, sub);
      && (r.Some? ==> OccursAt(s, sub, r.value))
      && (r.Some? ==> forall j :: 0 <= j < r.value ==> !OccursAt(s, sub, j))
      && (r.None? ==> forall j :: !OccursAt(s, sub, j))
  {
    IndexFromSpec(s, sub, 0);
  }

  /** Python's `sub in s`. */
  predicate Contains(s: string, sub: string) {
    IndexOf(s, sub).Some?
  }

  lemma ContainsIff(s: string, sub: string)
    ensures Contains(s, sub) <==> exists i :: OccursAt(s, sub, i)
  {
    IndexOfSpec(s, sub);
  }

  // ---------------------------------------------------------------------
  // Stripping

  function LStrip(s: string): (r: string)
    ensures |r| <= |s| && r == s[|s| - |r|..]
    ensures r == [] || !IsSpace(r[0])
    ensures forall i :: 0 <= i < |s| - |r| ==> IsSpace(s[i])
  {
    if s != [] && IsSpace(s[0]) then
      var r := LStrip(s[1..]);
      assert s[1..][|s| - 1 - |r|..] == s[|s| - |r|..];
      assert forall i :: 1 <= i < |s| - |r| ==> s[i] == s[1..][i - 1];
      r
    else s
  }

  function RStrip(s: string): (r: string)
    ensures |r| <= |s| && r == s[..|r|]
    ensures r == [] || !IsSpace(r[|r| - 1])
    ensures forall i :: |r| <= i < |s| ==> IsSpace(s[i])
  {
    if s != [] && IsSpace(s[|s| - 1]) then
      var r := RStrip(s[..|s| - 1]);
      assert s[..|s| - 1][..|r|] == s[..|r|];
      assert forall i :: |r| <= i < |s| - 1 ==> s[i] == s[..|s| - 1][i];
      r
    else s
  }

  /** The number of white-space characters `strip()` removes at the front. */
  function LeadingSpaces(s: string): (n: nat)
    ensures n <= |s|
  {
    |s| - |LStrip(s)|
  }

  /** `str.strip()`: the infix left after removing white space at both ends. */
  function Strip(s: string): string {
    RStrip(LStrip(s))
  }

  /** The strip is the infix of `s` between its leading and trailing white
      space, and it neither begins nor ends with white space. */
  lemma StripSpec(s: string)
    ensures LeadingSpaces(s) + |Strip(s)| <= |s|
    ensures Strip(s) == s[LeadingSpaces(s)..LeadingSpaces(s) + |Strip(s)|]
    ensures forall k :: 0 <= k < LeadingSpaces(s) ==> IsSpace(s[k])
    ensures forall k :: LeadingSpaces(s) + |Strip(s)| <= k < |s| ==> IsSpace(s[k])
    ensures Strip(s) == [] || (!IsSpace(Strip(s)[0]) && !IsSpace(Strip(s)[|Strip(s)| - 1]))
  {
    StripInfix(s);
    StripTrailing(s);
    StripEnds(s);
  }

  lemma StripInfix(s: string)
    ensures LeadingSpaces(s) + |Strip(s)| <= |s|
    ensures Strip(s) == s[LeadingSpaces(s)..LeadingSpaces(s) + |Strip(s)|]
  {
    var l := LStrip(s);
    var r := RStrip(l);
    var i := |s| - |l|;
    assert LeadingSpaces(s) == i;
    assert r == s[i..][..|r|];
    assert s[i..][..|r|] == s[i..i + |r|];
  }

  lemma StripTrailing(s: string)
    ensures forall k :: LeadingSpaces(s) + |Strip(s)| <= k < |s| ==> IsSpace(s[k])
  {
    var l := LStrip(s);
    var r := RStrip(l);
    var i := |s| - |l|;
    assert LeadingSpaces(s) + |Strip(s)| == i + |r|;
    assert l == s[i..];
    forall k | i + |r| <= k < |s|
      ensures IsSpace(s[k])
    {
      assert s[k] == l[k - i] && IsSpace(l[k - i]);
    }
  }

  lemma StripEnds(s: string)
    ensures Strip(s) == [] || (!IsSpace(Strip(s)[0]) && !IsSpace(Strip(s)[|Strip(s)| - 1]))
  {
    var l := LStrip(s);
    var r := RStrip(l);
    if r != [] {
      assert r[0] == l[0];
    }
  }

  /** A string with no white space at either end is its own strip. */
  lemma StripTrimmed(s: string)
    requires s == [] || (!IsSpace(s[0]) && !IsSpace(s[|s| - 1]))
    ensures Strip(s) == s
  {
    assert LStrip(s) == s;
    assert RStrip(s) == s;
  }

  lemma StripNoSpace(s: string)
    requires NoSpace(s)
    ensures Strip(s) == s
  {
  }

  /** Stripping twice strips nothing more. */
  lemma StripIdempotent(s: string)
    ensures Strip(Strip(s)) == Strip(s)
  {
    var r := Strip(s);
    assert LStrip(r) == r;
    assert RStrip(r) == r;
  }

  /** A character that does not occur in `s` is not a substring of it. */
  lemma NotContainsChar(s: string, c: char)
    requires c !in s
    ensures !Contains(s, [c])
  {
    forall j ensures !OccursAt(s, [c], j) {
      if 0 <= j < |s| {
        assert s[j..j + 1][0] == s[j];
      }
    }
    ContainsIff(s, [c]);
  }

  /** A one-character substring is an occurrence of that character. */
  lemma ContainsChar(s: string, c: char)
    ensures Contains(s, [c]) <==> c in s
  {
    forall j | 0 <= j < |s| ensures OccursAt(s, [c], j) <==> s[j] == c {
      assert s[j..j + 1][0] == s[j];
    }
    ContainsIff(s, [c]);
  }

  /** Stripping adds no character. */
  lemma StripSubset(s: string, c: char)
    requires c !in s
    ensures c !in Strip(s)
  {
    var r := Strip(s);
    var off := LeadingSpaces(s);
    forall k | 0 <= k < |r| ensures r[k] != c {
      assert r[k] == s[off + k];
    }
  }

  /** How Python formats a possibly-None string into an f-string. */
  function PyStr(s: Option<string>): string {
    if s.Some? then s.value else "None"
  }

  /** `s.rstrip(c)` for a single character `c`. */
  function RStripChar(s: string, c: char): (r: string)
    ensures |r| <= |s| && r == s[..|r|]
    ensures r == [] || r[|r| - 1] != c
    ensures forall i :: |r| <= i < |s| ==> s[i] == c
  {
    if s != [] && s[|s| - 1] == c then RStripChar(s[..|s| - 1], c) else s
  }

  /** `s.replace(a, b)` for single characters. */
  function ReplaceChar(s: string, a: char, b: char): (r: string)
    ensures |r| == |s|
    ensures forall i :: 0 <= i < |s| ==> r[i] == (if s[i] == a then b else s[i])
  {
    seq(|s|, i requires 0 <= i < |s| => if s[i] == a then b else s[i])
  }

  /** `s` with every character of `cs` deleted: a chain of `replace(c, "")`. */
  function DropChars(s: string, cs: set<char>): string {
    if s == [] then [] else (if s[0] in cs then [] else [s[0]]) + DropChars(s[1..], cs)
  }

  /** Deleting characters works piece by piece ... */
  lemma {:induction false} DropCharsAppend(a: string, b: string, cs: set<char>)
    ensures DropChars(a + b, cs) == DropChars(a, cs) + DropChars(b, cs)
    decreases |a|
  {
    if a != [] {
      assert (a + b)[1..] == a[1..] + b;
      DropCharsAppend(a[1..], b, cs);
    } else {
      assert a + b == b;
    }
  }

  /** ... and one character is deleted exactly when it is in `cs`; together
      with DropCharsAppend this says every other character is kept, in order. */
  lemma DropCharsOne(c: char, cs: set<char>)
    ensures DropChars([c], cs) == if c in cs then [] else [c]
  {
    assert [c][1..] == [];
  }

  /** A character survives exactly when it occurred and is not deleted. */
  lemma {:induction false} DropCharsMembers(s: string, cs: set<char>, c: char)
    ensures c in DropChars(s, cs) <==> c in s && c !in cs
    decreases |s|
  {
    if s != [] {
      DropCharsMembers(s[1..], cs, c);
      assert s == [s[0]] + s[1..];
    }
  }

  /** Text with none of the characters is left as it is. */
  lemma {:induction false} DropCharsNone(s: string, cs: set<char>)
    requires forall i :: 0 <= i < |s| ==> s[i] !in cs
    ensures DropChars(s, cs) == s
    decreases |s|
  {
    if s != [] {
      DropCharsNone(s[1..], cs);
      assert s == [s[0]] + s[1..];
    }
  }

  // ---------------------------------------------------------------------
  // Split and join

  /** `sep.join(parts)`. */
  function Join(parts: seq<string>, sep: string): string {
    if parts == [] then ""
    else if |parts| == 1 then parts[0]
    else parts[0] + sep + Join(parts[1..], sep)
  }

  lemma JoinSnoc(parts: seq<string>, last: string, sep: string)
    requires parts != []
    ensures Join(parts + [last], sep) == Join(parts, sep) + sep + last
    decreases |parts|
  {
    if |parts| > 1 {
      assert (parts + [last])[1..] == parts[1..] + [last];
      JoinSnoc(parts[1..], last, sep);
    }
  }

  /** `s.split(sep)` for a non-empty separator. */
  function Split(s: string, sep: string): (r: seq<string>)
    requires sep != []
    ensures |r| >= 1
    decreases |s|
  {
    IndexOfSpec(s, sep);
    match IndexOf(s, sep)
    case None => [s]
    case Some(i) => [s[..i]] + Split(s[i + |sep|..], sep)
  }

  /** No piece of a split contains the separator. */
  lemma {:induction false} SplitPiecesFree(s: string, sep: string)
    requires sep != []
    ensures forall i :: 0 <= i < |Split(s, sep)| ==> !Contains(Split(s, sep)[i], sep)
    decreases |s|
  {
    IndexOfSpec(s, sep);
    match IndexOf(s, sep)
    case None =>
    case Some(i) =>
      var head := s[..i];
      forall j | 0 <= j && j + |sep| <= i ensures !OccursAt(head, sep, j) {
        assert !OccursAt(s, sep, j);
        assert head[j..j + |sep|] == s[j..j + |sep|];
      }
      IndexOfSpec(head, sep);
      SplitPiecesFree(s[i + |sep|..], sep);
  }

  lemma IndexOfOccurs(s: string, sub: string)
    ensures IndexOf(s, sub).Some? ==> OccursAt(s, sub, IndexOf(s, sub).value)
  {
    IndexOfSpec(s, sub);
  }

  lemma {:induction false} SplitJoin(s: string, sep: string)
    requires sep != []
    ensures Join(Split(s, sep), sep) == s
    decreases |s|
  {
    var idx := IndexOf(s, sep);
    IndexOfOccurs(s, sep);
    if idx.Some? {
      var i := idx.value;
      var rest := s[i + |sep|..];
      SplitJoin(rest, sep);
      var tail := Split(rest, sep);
      assert Split(s, sep) == [s[..i]] + tail;
      JoinCons(s[..i], tail, sep);
      ThreeParts(s, i, i + |sep|);
    }
  }

  /** `s.replace(a, b)` is `b.join(s.split(a))`: each occurrence of `a` is
      where the text is cut, and `b` is what is put back there. */
  lemma {:induction false} ReplaceCharSplitJoin(s: string, a: char, b: char)
    ensures ReplaceChar(s, a, b) == Join(Split(s, [a]), [b])
    decreases |s|
  {
    IndexOfSpec(s, [a]);
    match IndexOf(s, [a])
    case None =>
      ReplaceCharAbsent(s, a, b, |s|);
      assert s[..|s|] == s;
    case Some(i) =>
      var rest := s[i + 1..];
      ReplaceCharAbsent(s, a, b, i);
      assert s[i..i + 1] == [a];
      ReplaceCharSplitJoin(rest, a, b);
      assert Split(s, [a]) == [s[..i]] + Split(rest, [a]);
      JoinCons(s[..i], Split(rest, [a]), [b]);
      ReplaceCharAt(s, a, b, i);
  }

  /** Before the first `a` nothing is replaced. */
  lemma ReplaceCharAbsent(s: string, a: char, b: char, i: nat)
    requires i <= |s| && forall j :: 0 <= j < i ==> !OccursAt(s, [a], j)
    ensures ReplaceChar(s[..i], a, b) == s[..i]
  {
    forall j | 0 <= j < i ensures s[j] != a {
      assert !OccursAt(s, [a], j);
      assert s[j..j + 1][0] == s[j];
    }
  }

  /** Replacing around an occurrence of `a` at `i`. */
  lemma ReplaceCharAt(s: string, a: char, b: char, i: nat)
    requires i < |s| && s[i] == a
    ensures ReplaceChar(s, a, b) == ReplaceChar(s[..i], a, b) + [b] + ReplaceChar(s[i + 1..], a, b)
  {
  }

  lemma ThreeParts(s: string, i: nat, j: nat)
    requires i <= j <= |s|
    ensures s == s[..i] + s[i..j] + s[j..]
  {
  }

  lemma JoinCons(a: string, tail: seq<string>, sep: string)
    requires tail != []
    ensures Join([a] + tail, sep) == a + sep + Join(tail, sep)
  {
    assert ([a] + tail)[1..] == tail;
  }

  /** Splitting a join gives the parts back, provided no part contains the
      separator and each part meets the separator first where it ends
      (automatic for a one-character separator: see SingleCharSepFirst). */
  lemma {:induction false} JoinSplit(parts: seq<string>, sep: string)
    requires sep != [] && parts != []
    requires forall i :: 0 <= i < |parts| - 1 ==> IndexOf(parts[i] + sep, sep) == Some(|parts[i]|)
    requires !Contains(parts[|parts| - 1], sep)
    ensures Split(Join(parts, sep), sep) == parts
    decreases |parts|
  {
    if |parts| > 1 {
      var p := parts[0];
      var s := Join(parts, sep);
      var rest := Join(parts[1..], sep);
      assert s == p + sep + rest;
      assert IndexOf(p + sep, sep) == Some(|p|);
      FirstOccurrenceExtends(p + sep, rest, sep, |p|);
      assert (p + sep) + rest == s;
      assert s[..|p|] == p;
      assert s[|p| + |sep|..] == rest;
      JoinSplit(parts[1..], sep);
      assert Split(s, sep) == [p] + parts[1..];
    } else {
      assert Join(parts, sep) == parts[0];
      IndexOfSpec(parts[0], sep);
    }
  }

  /** With a one-character separator, a part free of it meets the separator
      first right after its own end. */
  lemma SingleCharSepFirst(p: string, c: char)
    requires !Contains(p, [c])
    ensures IndexOf(p + [c], [c]) == Some(|p|)
  {
    var s := p + [c];
    IndexOfSpec(p, [c]);
    IndexOfSpec(s, [c]);
    assert OccursAt(s, [c], |p|);
    forall j | 0 <= j < |p| ensures !OccursAt(s, [c], j) {
      assert !OccursAt(p, [c], j);
      assert s[j..j + 1] == p[j..j + 1];
    }
  }

  /** A part that lacks the separator's first character meets the separator
      first right after its own end. */
  lemma SepFirst(p: string, sep: string)
    requires sep != [] && sep[0] !in p
    ensures IndexOf(p + sep, sep) == Some(|p|)
    ensures !Contains(p, sep)
  {
    var s := p + sep;
    IndexOfSpec(s, sep);
    assert s[|p|..|p| + |sep|] == sep;
    assert OccursAt(s, sep, |p|);
    forall j | 0 <= j < |p| ensures s[j..j + |sep|][0] == p[j] {
    }
    forall j | 0 <= j && j + |sep| <= |p| ensures p[j..j + |sep|][0] == p[j] {
    }
    ContainsIff(p, sep);
  }

  lemma FirstOccurrenceExtends(a: string, b: string, sub: string, i: nat)
    requires IndexOf(a, sub) == Some(i)
    ensures IndexOf(a + b, sub) == Some(i)
  {
    var s := a + b;
    IndexOfSpec(a, sub);
    IndexOfSpec(s, sub);
    assert OccursAt(a, sub, i);
    assert s[i..i + |sub|] == a[i..i + |sub|];
    assert OccursAt(s, sub, i);
    forall j | 0 <= j < i ensures !OccursAt(s, sub, j) {
      assert !OccursAt(a, sub, j);
      assert s[j..j + |sub|] == a[j..j + |sub|];
    }
    var k := IndexOf(s, sub);
    assert k.Some?;
    assert OccursAt(s, sub, k.value);
  }

  /** `s.split(sep, 1)`: the text before the first `sep`, and the text after
      it when there is one. */
  function SplitOnce(s: string, sep: string): (r: (string, Option<string>))
    requires sep != []
    ensures r.1.None? ==> r.0 == s && !Contains(s, sep)
    ensures r.1.Some? ==> s == r.0 + sep + r.1.value && !Contains(r.0, sep)
  {
    var parts := Split(s, sep);
    SplitJoin(s, sep);
    SplitPiecesFree(s, sep);
    if |parts| == 1 then (parts[0], None)
    else (parts[0], Some(Join(parts[1..], sep)))
  }

  /** Splitting once at the first occurrence of `sep`, when there is one. */
  lemma SplitOnceAt(s: string, sep: string, i: nat)
    requires sep != [] && IndexOf(s, sep) == Some(i)
    ensures i + |sep| <= |s|
    ensures SplitOnce(s, sep) == (s[..i], Some(s[i + |sep|..]))
  {
    IndexOfOccurs(s, sep);
    var rest := s[i + |sep|..];
    assert Split(s, sep) == [s[..i]] + Split(rest, sep);
    assert Split(s, sep)[1..] == Split(rest, sep);
    SplitJoin(rest, sep);
  }

  /** The first occurrence of a single character. */
  lemma IndexOfChar(s: string, c: char, i: nat)
    requires i < |s| && s[i] == c
    requires forall j :: 0 <= j < i ==> s[j] != c
    ensures IndexOf(s, [c]) == Some(i)
  {
    IndexOfSpec(s, [c]);
    assert s[i..i + 1] == [c];
    assert OccursAt(s, [c], i);
    var r := IndexOf(s, [c]).value;
    assert s[r..r + 1] == [c];
    assert s[r] == c;
  }

  // ---------------------------------------------------------------------
  // Whitespace-separated fields: `s.split()` with no argument

  /** Length of the leading run of non-space characters. */
  function TokenLen(s: string): (n: nat)
    ensures n <= |s| && NoSpace(s[..n])
    ensures n < |s| ==> IsSpace(s[n])
  {
    if s == [] || IsSpace(s[0]) then 0 else 1 + TokenLen(s[1..])
  }

  function Fields(s: string): seq<string>
    decreases |s|
  {
    var t := LStrip(s);
    if t == [] then []
    else
      var n := TokenLen(t);
      [t[..n]] + Fields(t[n..])
  }

  /** Every field is a non-empty run of non-white-space characters. */
  lemma {:induction false} FieldsAreFields(s: string)
    ensures forall i :: 0 <= i < |Fields(s)| ==> IsField(Fields(s)[i])
    decreases |s|
  {
    var t := LStrip(s);
    if t != [] {
      var n := TokenLen(t);
      FieldsAreFields(t[n..]);
    }
  }

  predicate IsField(f: string) {
    f != [] && NoSpace(f)
  }

  /** Joining non-empty, space-free fields with single spaces and splitting
      the result again gives the fields back. */
  lemma {:induction false} FieldsOfJoin(fs: seq<string>)
    requires forall i :: 0 <= i < |fs| ==> IsField(fs[i])
    ensures Fields(Join(fs, " ")) == fs
    decreases |fs|
  {
    if fs == [] {
      assert Join(fs, " ") == "";
      assert Fields("") == [] by { assert LStrip("") == ""; }
    } else if |fs| == 1 {
      assert Join(fs, " ") == fs[0];
      assert Fields(fs[0]) == [fs[0]] by {
        assert Fields("") == [] by { assert LStrip("") == ""; }
        FieldsCons(fs[0], "");
        assert fs[0] + "" == fs[0];
      }
      assert fs == [fs[0]];
    } else {
      var rest := Join(fs[1..], " ");
      assert Fields(Join(fs, " ")) == [fs[0]] + Fields(rest) by {
        assert Join(fs, " ") == fs[0] + (" " + rest);
        FieldsCons(fs[0], " " + rest);
        FieldsAfterSpace(rest);
      }
      assert Fields(rest) == fs[1..] by {
        forall i | 0 <= i < |fs[1..]| ensures IsField(fs[1..][i]) {
          assert fs[1..][i] == fs[i + 1];
        }
        FieldsOfJoin(fs[1..]);
      }
      assert fs == [fs[0]] + fs[1..];
    }
  }

  lemma FieldsAfterSpace(x: string)
    ensures Fields(" " + x) == Fields(x)
  {
    assert (" " + x)[1..] == x;
    assert LStrip(" " + x) == LStrip(x);
  }

  lemma FieldsCons(f: string, rest: string)
    requires IsField(f) && (rest == [] || IsSpace(rest[0]))
    ensures Fields(f + rest) == [f] + Fields(rest)
  {
    var s := f + rest;
    assert s[0] == f[0];
    assert LStrip(s) == s;
    TokenLenUpTo(f, rest);
    assert s[..|f|] == f;
    assert s[|f|..] == rest;
  }

  lemma TokenLenUpTo(f: string, rest: string)
    requires NoSpace(f) && (rest == [] || IsSpace(rest[0]))
    ensures TokenLen(f + rest) == |f|
  {
    if f != [] {
      assert (f + rest)[1..] == f[1..] + rest;
      TokenLenUpTo(f[1..], rest);
    } else {
      assert f + rest == rest;
    }
  }

  // ---------------------------------------------------------------------
  // Lines: `str.splitlines()`

  /** The characters Python's `splitlines` breaks at. */
  predicate IsLineBreak(c: char) {
    || c == '\n' || c == '\r' || c == '\U{0b}' || c == '\U{0c}'
    || ('\U{1c}' <= c <= '\U{1e}')
    || c == '\U{85}' || c == '\U{2028}' || c == '\U{2029}'
  }

  function LineLen(s: string): (n: nat)
    ensures n <= |s|
    ensures forall i :: 0 <= i < n ==> !IsLineBreak(s[i])
    ensures n < |s| ==> IsLineBreak(s[n])
  {
    if s == [] || IsLineBreak(s[0]) then 0 else 1 + LineLen(s[1..])
  }

  /** `s.splitlines()`: `\r\n` counts as one break, and a break at the very
      end does not start an empty last line. */
  function Lines(s: string): (r: seq<string>)
    ensures s == [] <==> r == []
    decreases |s|
  {
    if s == [] then []
    else
      var n := LineLen(s);
      if n == |s| then [s]
      else
        var skip := if s[n] == '\r' && n + 1 < |s| && s[n + 1] == '\n' then 2 else 1;
        [s[..n]] + Lines(s[n + skip..])
  }

  predicate NoLineBreak(line: string) {
    forall k :: 0 <= k < |line| ==> !IsLineBreak(line[k])
  }

  /** No line holds a line break. */
  lemma {:induction false} LinesNoBreak(s: string)
    ensures forall i :: 0 <= i < |Lines(s)| ==> NoLineBreak(Lines(s)[i])
    decreases |s|
  {
    if s != [] {
      var n := LineLen(s);
      assert NoLineBreak(s[..n]) by {
        forall k | 0 <= k < n ensures !IsLineBreak(s[..n][k]) {
          assert s[..n][k] == s[k];
        }
      }
      if n == |s| {
        assert Lines(s) == [s[..n]] by { assert s[..n] == s; }
      } else {
        var skip := if s[n] == '\r' && n + 1 < |s| && s[n + 1] == '\n' then 2 else 1;
        var t := s[n + skip..];
        var ls := [s[..n]] + Lines(t);
        assert forall i :: 0 <= i < |ls| ==> NoLineBreak(ls[i]) by {
          LinesNoBreak(t);
          NoBreakCons(s[..n], Lines(t));
        }
        assert Lines(s) == ls;
      }
    }
  }

  lemma NoBreakCons(line: string, ls: seq<string>)
    requires NoLineBreak(line) && forall i :: 0 <= i < |ls| ==> NoLineBreak(ls[i])
    ensures forall i :: 0 <= i < |[line] + ls| ==> NoLineBreak(([line] + ls)[i])
  {
    forall i | 0 < i < |[line] + ls| ensures NoLineBreak(([line] + ls)[i]) {
      assert ([line] + ls)[i] == ls[i - 1];
    }
  }

  lemma {:induction false} LineLenUpTo(line: string, rest: string)
    requires NoLineBreak(line) && rest != [] && IsLineBreak(rest[0])
    ensures LineLen(line + rest) == |line|
    decreases |line|
  {
    if line != [] {
      assert (line + rest)[1..] == line[1..] + rest;
      LineLenUpTo(line[1..], rest);
    } else {
      assert line + rest == rest;
    }
  }

  lemma LinesAfterBreak(line: string, rest: string)
    requires NoLineBreak(line)
    ensures Lines(line + ("\n" + rest)) == [line] + Lines(rest)
  {
    var s := line + ("\n" + rest);
    LineLenUpTo(line, "\n" + rest);
    assert s[|line|] == '\n';
    assert s[..|line|] == line;
    assert s[|line| + 1..] == rest;
  }

  /** `splitlines` undoes joining lines with `\n`, provided the lines hold
      no break and the last one is not empty. */
  lemma {:induction false} LinesOfJoin(ls: seq<string>)
    requires ls != [] && ls[|ls| - 1] != []
    requires forall i :: 0 <= i < |ls| ==> NoLineBreak(ls[i])
    ensures Lines(Join(ls, "\n")) == ls
    decreases |ls|
  {
    if |ls| == 1 {
      var s := ls[0];
      assert Join(ls, "\n") == s;
      assert LineLen(s) == |s|;
    } else {
      var s := Join(ls, "\n");
      var rest := Join(ls[1..], "\n");
      assert Lines(s) == [ls[0]] + Lines(rest) by {
        assert s == ls[0] + ("\n" + rest);
        LinesAfterBreak(ls[0], rest);
      }
      assert Lines(rest) == ls[1..] by {
        forall i | 0 <= i < |ls[1..]| ensures NoLineBreak(ls[1..][i]) {
          assert ls[1..][i] == ls[i + 1];
        }
        assert ls[1..][|ls[1..]| - 1] == ls[|ls| - 1];
        LinesOfJoin(ls[1..]);
      }
      assert ls == [ls[0]] + ls[1..];
    }
  }


  // ---------------------------------------------------------------------
  // Decimal rendering: `str(n)` and `int(digits)`

  function DigitChar(d: nat): char
    requires d < 10
  {
    ('0' as int + d) as char
  }

  function NatToString(n: nat): (r: string)
    ensures r != [] && forall i :: 0 <= i < |r| ==> IsDigit(r[i])
  {
    if n < 10 then [DigitChar(n)] else NatToString(n / 10) + [DigitChar(n % 10)]
  }

  /** `str(i)` for a Python (or Ruby) integer. */
  function IntToString(i: int): (r: string)
    ensures r != []
  {
    if i < 0 then "-" + NatToString(-i) else NatToString(i)
  }

  /** The value of a string of decimal digits, as `int()` reads it. */
  function DigitsValue(s: string): nat
    requires forall i :: 0 <= i < |s| ==> IsDigit(s[i])
  {
    if s == [] then 0
    else
      assert IsDigit(s[|s| - 1]);
      DigitsValue(s[..|s| - 1]) * 10 + (s[|s| - 1] as int - '0' as int)
  }

  lemma {:induction false} DigitsValueOfNatToString(n: nat)
    ensures DigitsValue(NatToString(n)) == n
  {
    if n >= 10 {
      var s := NatToString(n);
      assert s[..|s| - 1] == NatToString(n / 10);
      DigitsValueOfNatToString(n / 10);
    }
  }

  /** A leading zero does not change the value. */
  lemma {:induction false} DigitsValueLeadingZero(s: string)
    requires forall i :: 0 <= i < |s| ==> IsDigit(s[i])
    ensures forall i :: 0 <= i < |"0" + s| ==> IsDigit(("0" + s)[i])
    ensures DigitsValue("0" + s) == DigitsValue(s)
  {
    var t := "0" + s;
    assert forall i :: 0 <= i < |t| ==> IsDigit(t[i]) by {
      forall i | 0 < i < |t| ensures IsDigit(t[i]) {
        assert t[i] == s[i - 1];
      }
    }
    if s == [] {
      assert t[..0] == [];
    } else {
      var init := s[..|s| - 1];
      DigitsValueLeadingZero(init);
      assert t[..|t| - 1] == "0" + init;
      assert t[|t| - 1] == s[|s| - 1];
    }
  }

  /** `str(n)` has no leading zero unless `n` is zero. */
  lemma {:induction false} NatToStringLeadingDigit(n: nat)
    requires n > 0
    ensures NatToString(n)[0] != '0'
  {
    if n >= 10 {
      NatToStringLeadingDigit(n / 10);
      assert NatToString(n)[0] == NatToString(n / 10)[0];
    }
  }

  /** Distinct integers render as distinct strings. */
  lemma IntToStringInjective(a: int, b: int)
    requires IntToString(a) == IntToString(b)
    ensures a == b
  {
    var sa, sb := IntToString(a), IntToString(b);
    assert (a < 0) == (b < 0) by {
      assert (sa[0] == '-') == (a < 0) by {
        if a >= 0 { assert IsDigit(NatToString(a)[0]); }
      }
      assert (sb[0] == '-') == (b < 0) by {
        if b >= 0 { assert IsDigit(NatToString(b)[0]); }
      }
    }
    if a < 0 {
      assert NatToString(-a) == NatToString(-b) by {
        assert sa[1..] == NatToString(-a) && sb[1..] == NatToString(-b);
      }
      DigitsValueOfNatToString(-a);
      DigitsValueOfNatToString(-b);
    } else {
      assert NatToString(a) == NatToString(b);
      DigitsValueOfNatToString(a);
      DigitsValueOfNatToString(b);
    }
  }
}
