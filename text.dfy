/**
 * The parts of Python's `str` behaviour that the bot relies on, over `seq<char>`:
 * searching, splitting and joining, replacing, case mapping, whitespace, slicing
 * with possibly negative bounds, and the `int(...)`/`str(...)` conversions.
 */
module Text {
  import opened Wrappers

  // ---------------------------------------------------------------- searching

  /** `s.startswith(p)` */
  predicate StartsWith(s: string, p: string) { p <= s }

  /** `s.endswith(p)` */
  predicate EndsWith(s: string, p: string) { |p| <= |s| && s[|s| - |p|..] == p }

  /** `sub` occurs in `s` starting at index `i`. */
  predicate OccursAt(s: string, sub: string, i: int) {
    0 <= i && i + |sub| <= |s| && s[i..i + |sub|] == sub
  }

  /** `s.find(sub, i)`: the first index at or after `i` where `sub` occurs, or -1. */
  function FindFrom(s: string, sub: string, i: nat): (r: int)
    requires i <= |s|
    ensures r == -1 || (i <= r && OccursAt(s, sub, r))
    decreases |s| - i
  {
    if i + |sub| > |s| then -1
    else if s[i..i + |sub|] == sub then i
    else FindFrom(s, sub, i + 1)
  }

  /** Nothing occurs from `i` on before the index found, and nowhere from `i` on when none is found. */
  lemma {:induction false} FindFromFirst(s: string, sub: string, i: nat)
    requires i <= |s|
    ensures forall j :: i <= j && (FindFrom(s, sub, i) == -1 || j < FindFrom(s, sub, i)) ==> !OccursAt(s, sub, j)
    decreases |s| - i
  {
    if i + |sub| <= |s| && s[i..i + |sub|] != sub {
      FindFromFirst(s, sub, i + 1);
    }
  }

  /** `s.find(sub)` */
  function Find(s: string, sub: string): (r: int)
    ensures r == -1 || OccursAt(s, sub, r)
  {
    FindFrom(s, sub, 0)
  }

  /** `find` answers the first occurrence: there is none before it, and none at all when it answers -1. */
  lemma FindFirst(s: string, sub: string)
    ensures forall j :: 0 <= j && (Find(s, sub) == -1 || j < Find(s, sub)) ==> !OccursAt(s, sub, j)
  {
    FindFromFirst(s, sub, 0);
  }

  /** `sub in s` */
  predicate Contains(s: string, sub: string) { Find(s, sub) >= 0 }

  lemma ContainsOccurrence(s: string, sub: string, i: int)
    requires OccursAt(s, sub, i)
    ensures Contains(s, sub)
  {
    FindFirst(s, sub);
  }

  lemma ContainsWitness(s: string, sub: string) returns (i: nat)
    requires Contains(s, sub)
    ensures OccursAt(s, sub, i)
  {
    i := Find(s, sub);
  }

  /** A one-character substring is contained exactly when the character is. */
  lemma ContainsChar(s: string, c: char)
    ensures Contains(s, [c]) <==> c in s
  {
    if c in s {
      var i :| 0 <= i < |s| && s[i] == c;
      assert s[i..i + 1] == [c];
      ContainsOccurrence(s, [c], i);
    }
    if Contains(s, [c]) {
      var i := ContainsWitness(s, [c]);
      assert s[i] == s[i..i + 1][0];
    }
  }

  /** An occurrence starts with the first character of what occurs. */
  lemma NotOccursAt(s: string, sub: string, j: int)
    requires sub != [] && 0 <= j < |s| && s[j] != sub[0]
    ensures !OccursAt(s, sub, j)
  {
    if j + |sub| <= |s| {
      assert s[j..j + |sub|][0] == s[j];
    }
  }

  /** A one-character occurrence is just the character at that index. */
  lemma OccursAtChar(s: string, c: char, j: int)
    requires 0 <= j < |s|
    ensures OccursAt(s, [c], j) <==> s[j] == c
  {
    assert s[j..j + 1] == [s[j]];
  }

  /** Nothing that starts with `sub[0]` can be found in a string without that character. */
  lemma FindAbsent(p: string, sub: string)
    requires sub != [] && sub[0] !in p
    ensures Find(p, sub) == -1
  {
    forall j | 0 <= j < |p| ensures !OccursAt(p, sub, j) {
      NotOccursAt(p, sub, j);
    }
  }

  /** Nothing occurs before the first occurrence, so the text before it holds none. */
  lemma FindInPrefix(s: string, sub: string)
    requires sub != [] && Find(s, sub) >= 0
    ensures Find(s[..Find(s, sub)], sub) == -1
  {
    var i := Find(s, sub);
    FindFirst(s, sub);
    forall j | 0 <= j < i ensures !OccursAt(s[..i], sub, j) {
      assert !OccursAt(s, sub, j);
      if j + |sub| <= i {
        assert s[..i][j..j + |sub|] == s[j..j + |sub|];
      }
    }
  }

  /** A text lacking the second character of `sub` holds no occurrence of it. */
  lemma FindAbsentSecond(p: string, sub: string)
    requires |sub| >= 2 && sub[1] !in p
    ensures Find(p, sub) == -1
  {
    forall j | 0 <= j < |p| ensures !OccursAt(p, sub, j) {
      if j + |sub| <= |p| {
        assert p[j..j + |sub|][1] == p[j + 1];
      }
    }
  }

  /** The first occurrence of `sep` in `p + sep + rest` is right after `p` when `p` lacks `sep[0]`. */
  lemma FindAfterPrefix(p: string, sep: string, rest: string)
    requires sep != [] && sep[0] !in p
    ensures Find(p + sep + rest, sep) == |p|
  {
    var s := p + sep + rest;
    assert s[|p|..|p| + |sep|] == sep;
    assert OccursAt(s, sep, |p|);
    FindFirst(s, sep);
    forall j | 0 <= j < |p| ensures !OccursAt(s, sep, j) {
      assert s[j] == p[j];
      NotOccursAt(s, sep, j);
    }
  }

  /** `s.rfind(c)` for a one-character needle: the last index holding `c`, or -1. */
  function RFind(s: string, c: char): (r: int)
    ensures -1 <= r < |s|
    ensures r >= 0 ==> s[r] == c
    ensures forall j :: r < j < |s| ==> s[j] != c
  {
    if |s| == 0 then -1
    else if s[|s| - 1] == c then |s| - 1
    else RFind(s[..|s| - 1], c)
  }

  /** `s.count(c)` for a one-character needle. */
  function Count(s: string, c: char): (r: nat)
    ensures r <= |s|
    ensures r == 0 <==> c !in s
  {
    if s == [] then 0 else (if s[0] == c then 1 else 0) + Count(s[1..], c)
  }

  lemma CountAppend(a: string, b: string, c: char)
    ensures Count(a + b, c) == Count(a, c) + Count(b, c)
  {
    if a != [] {
      assert (a + b)[1..] == a[1..] + b;
      CountAppend(a[1..], b, c);
    } else {
      assert a + b == b;
    }
  }

  // -------------------------------------------------- splitting and joining

  /** `s.split(sep)` for a non-empty separator. */
  function Split(s: string, sep: string): (r: seq<string>)
    requires sep != []
    ensures |r| >= 1
    decreases |s|
  {
    if Find(s, sep) < 0 then [s] else [s[..Find(s, sep)]] + Split(s[Find(s, sep) + |sep|..], sep)
  }

  /** `sep.join(parts)` */
  function Join(sep: string, parts: seq<string>): (r: string)
    ensures |parts| == 1 ==> r == parts[0]
    ensures parts == [] ==> r == []
  {
    if |parts| == 0 then "" else if |parts| == 1 then parts[0] else parts[0] + sep + Join(sep, parts[1..])
  }

  /**
   * Splitting a joined list gives the list back, provided no part holds the
   * first character of the separator.
   */
  lemma {:induction false} SplitJoin(parts: seq<string>, sep: string)
    requires sep != [] && |parts| >= 1
    requires forall k :: 0 <= k < |parts| ==> sep[0] !in parts[k]
    ensures Split(Join(sep, parts), sep) == parts
  {
    if |parts| == 1 {
      FindAbsent(parts[0], sep);
    } else {
      var rest := Join(sep, parts[1..]);
      assert Join(sep, parts) == parts[0] + sep + rest;
      SplitAfterPrefix(parts[0], sep, rest);
      SplitJoin(parts[1..], sep);
      assert parts == [parts[0]] + parts[1..];
    }
  }

  /** Text without `sep[0]` followed by `sep` splits off as the first part. */
  lemma SplitAfterPrefix(p: string, sep: string, rest: string)
    requires sep != [] && sep[0] !in p
    ensures Split(p + sep + rest, sep) == [p] + Split(rest, sep)
  {
    var s := p + sep + rest;
    FindAfterPrefix(p, sep, rest);
    assert s[..|p|] == p;
    assert s[|p| + |sep|..] == rest;
  }

  /** Splitting at a single character: one more part than occurrences, none holding it, and joining restores the text. */
  lemma {:induction false} SplitChar(s: string, c: char)
    ensures |Split(s, [c])| == Count(s, c) + 1
    ensures forall k :: 0 <= k < |Split(s, [c])| ==> c !in Split(s, [c])[k]
    ensures Join([c], Split(s, [c])) == s
    decreases |s|
  {
    var i := Find(s, [c]);
    FindFirst(s, [c]);
    if i < 0 {
      forall j | 0 <= j < |s| ensures s[j] != c {
        OccursAtChar(s, c, j);
      }
      assert Split(s, [c]) == [s];
    } else {
      var a, rest := s[..i], s[i + 1..];
      OccursAtChar(s, c, i);
      forall j | 0 <= j < i ensures a[j] != c {
        OccursAtChar(s, c, j);
      }
      assert s == a + [c] + rest;
      SplitAfterPrefix(a, [c], rest);
      var parts := Split(rest, [c]);
      SplitChar(rest, c);
      CountPieces(s, c, a, rest);
      JoinCons([c], a, parts);
    }
  }

  lemma JoinCons(sep: string, a: string, parts: seq<string>)
    requires |parts| >= 1
    ensures Join(sep, [a] + parts) == a + sep + Join(sep, parts)
  {
    assert ([a] + parts)[1..] == parts;
  }

  lemma {:induction false} JoinSnoc(sep: string, parts: seq<string>, x: string)
    requires |parts| >= 1
    ensures Join(sep, parts + [x]) == Join(sep, parts) + sep + x
    decreases |parts|
  {
    if |parts| == 1 {
      assert (parts + [x])[1..] == [x];
    } else {
      assert (parts + [x])[1..] == parts[1..] + [x];
      JoinSnoc(sep, parts[1..], x);
    }
  }

  lemma CountPieces(s: string, c: char, a: string, rest: string)
    requires s == a + [c] + rest && c !in a
    ensures Count(s, c) == Count(rest, c) + 1
  {
    CountAppend(a + [c], rest, c);
    CountAppend(a, [c], c);
  }

  /** The concatenation of `line + sep` over the lines: what a loop doing `s += line + sep` builds. */
  function Terminated(lines: seq<string>, sep: string): (r: string)
    ensures lines == [] ==> r == []
  {
    if lines == [] then "" else Terminated(lines[..|lines| - 1], sep) + lines[|lines| - 1] + sep
  }

  lemma TerminatedAppend(lines: seq<string>, line: string, sep: string)
    ensures Terminated(lines + [line], sep) == Terminated(lines, sep) + line + sep
  {
    assert (lines + [line])[..|lines|] == lines;
  }

  lemma {:induction false} TerminatedCons(line: string, lines: seq<string>, sep: string)
    ensures Terminated([line] + lines, sep) == line + sep + Terminated(lines, sep)
    decreases |lines|
  {
    if lines == [] {
      assert [line] + lines == [] + [line];
      TerminatedAppend([], line, sep);
    } else {
      var front := lines[..|lines| - 1];
      var last := lines[|lines| - 1];
      var xs := [line] + front;
      assert lines == front + [last];
      assert [line] + lines == xs + [last];
      TerminatedAppend(xs, last, sep);
      TerminatedCons(line, front, sep);
      TerminatedAppend(front, last, sep);
      var tf := Terminated(front, sep);
      assert Terminated([line] + lines, sep) == (line + sep + tf) + last + sep;
      assert Terminated(lines, sep) == tf + last + sep;
      ConcatAssoc(line + sep, tf, last + sep);
    }
  }

  lemma ConcatAssoc(a: string, b: string, c: string)
    ensures (a + b) + c == a + (b + c)
  {
  }

  /** Terminated lines followed by one more piece are the lines and the piece joined. */
  lemma {:induction false} TerminatedJoin(lines: seq<string>, x: string, sep: string)
    ensures Terminated(lines, sep) + x == Join(sep, lines + [x])
    decreases |lines|
  {
    if lines != [] {
      var front := lines[..|lines| - 1];
      var last := lines[|lines| - 1];
      assert lines == front + [last];
      TerminatedJoin(front, last, sep);
      assert lines + [x] == (front + [last]) + [x];
      JoinSnoc(sep, front + [last], x);
    }
  }

  /** A character in neither the separator nor any part is not in the joined text. */
  lemma {:induction false} JoinAvoids(sep: string, parts: seq<string>, c: char)
    requires c !in sep
    requires forall k :: 0 <= k < |parts| ==> c !in parts[k]
    ensures c !in Join(sep, parts)
    decreases |parts|
  {
    if |parts| > 1 {
      JoinAvoids(sep, parts[1..], c);
    }
  }

  /** Splitting separator-terminated lines gives the lines back, then the empty rest after the last separator. */
  lemma {:induction false} SplitTerminated(lines: seq<string>, sep: string)
    requires sep != []
    requires forall k :: 0 <= k < |lines| ==> sep[0] !in lines[k]
    ensures Split(Terminated(lines, sep), sep) == lines + [""]
    decreases |lines|
  {
    if lines == [] {
      FindAbsent("", sep);
    } else {
      assert lines == [lines[0]] + lines[1..];
      TerminatedCons(lines[0], lines[1..], sep);
      SplitAfterPrefix(lines[0], sep, Terminated(lines[1..], sep));
      SplitTerminated(lines[1..], sep);
    }
  }

  /**
   * `s.replace(pat, by)` for a non-empty pattern: scanning from the left, each
   * occurrence is replaced and the scan goes on after it, so occurrences do
   * not overlap.
   */
  function Replace(s: string, pat: string, repl: string): (r: string)
    requires pat != []
    decreases |s|
  {
    if |s| < |pat| then s
    else if s[..|pat|] == pat then repl + Replace(s[|pat|..], pat, repl)
    else [s[0]] + Replace(s[1..], pat, repl)
  }

  /** Without an occurrence of the pattern nothing is replaced. */
  lemma {:induction false} ReplaceAbsent(s: string, pat: string, repl: string)
    requires pat != [] && Find(s, pat) == -1
    ensures Replace(s, pat, repl) == s
    decreases |s|
  {
    FindFirst(s, pat);
    if |s| >= |pat| {
      assert !OccursAt(s, pat, 0);
      var tail := s[1..];
      forall j | 0 <= j < |tail| ensures !OccursAt(tail, pat, j) {
        assert !OccursAt(s, pat, j + 1);
        if j + |pat| <= |tail| {
          assert tail[j..j + |pat|] == s[j + 1..j + 1 + |pat|];
        }
      }
      ReplaceAbsent(tail, pat, repl);
      assert s == [s[0]] + tail;
    }
  }

  /** Replacing a character by text that lacks it leaves no occurrence of the character. */
  lemma {:induction false} ReplaceCharGone(s: string, c: char, repl: string)
    requires c !in repl
    ensures c !in Replace(s, [c], repl)
    decreases |s|
  {
    if |s| >= 1 {
      ReplaceCharGone(s[1..], c, repl);
      if s[..1] != [c] {
        assert s[0] == s[..1][0];
      }
    }
  }

  /** Replacing never introduces a character that was in neither the text nor the replacement. */
  lemma {:induction false} ReplaceFrom(s: string, pat: string, repl: string, x: char)
    requires pat != []
    requires x in Replace(s, pat, repl)
    ensures x in s || x in repl
    decreases |s|
  {
    if |s| >= |pat| {
      var hit := s[..|pat|] == pat;
      var k := if hit then |pat| else 1;
      var head := if hit then repl else [s[0]];
      assert Replace(s, pat, repl) == head + Replace(s[k..], pat, repl);
      if x !in head {
        ReplaceFrom(s[k..], pat, repl, x);
        if x in s[k..] {
          var j :| 0 <= j < |s[k..]| && s[k..][j] == x;
          assert s[k + j] == x;
        }
      }
    }
  }

  // ------------------------------------------------------------ case mapping

  /** Upper-case letters that map one-to-one to a lower-case letter (ASCII and Latin-1). */
  predicate IsUpperLetter(c: char) {
    ('A' <= c <= 'Z') || ('\U{C0}' <= c <= '\U{DE}' && c != '\U{D7}')
  }

  /**
   * Lower-case letters that map one-to-one to an upper-case letter (ASCII and Latin-1).
   * Not among them: ß, µ and ÿ, whose upper case is two characters or lies outside Latin-1.
   */
  predicate IsLowerLetter(c: char) {
    ('a' <= c <= 'z') || ('\U{E0}' <= c <= '\U{FE}' && c != '\U{F7}')
  }

  function ToLowerChar(c: char): (r: char)
    ensures IsUpperLetter(c) ==> IsLowerLetter(r)
    ensures !IsUpperLetter(c) ==> r == c
  {
    if IsUpperLetter(c) then (c as int + 32) as char else c
  }

  function ToUpperChar(c: char): (r: char)
    ensures IsLowerLetter(c) ==> IsUpperLetter(r)
    ensures !IsLowerLetter(c) ==> r == c
  {
    if IsLowerLetter(c) then (c as int - 32) as char else c
  }

  /** `s.lower()` */
  function Lower(s: string): (r: string)
    ensures |r| == |s|
    ensures forall i :: 0 <= i < |s| ==> r[i] == ToLowerChar(s[i])
  {
    seq(|s|, i requires 0 <= i < |s| => ToLowerChar(s[i]))
  }

  /** `s.upper()` */
  function Upper(s: string): (r: string)
    ensures |r| == |s|
    ensures forall i :: 0 <= i < |s| ==> r[i] == ToUpperChar(s[i])
  {
    seq(|s|, i requires 0 <= i < |s| => ToUpperChar(s[i]))
  }

  /** `s.capitalize()`: first character upper case, the rest lower case. */
  function Capitalize(s: string): (r: string)
    ensures |r| == |s|
    ensures s != [] ==> r[0] == ToUpperChar(s[0]) && r[1..] == Lower(s[1..])
  {
    if s == [] then [] else [ToUpperChar(s[0])] + Lower(s[1..])
  }

  lemma LowerIdempotent(s: string)
    ensures Lower(Lower(s)) == Lower(s)
  {
  }

  lemma UpperIdempotent(s: string)
    ensures Upper(Upper(s)) == Upper(s)
  {
  }

  lemma LowerAppend(a: string, b: string)
    ensures Lower(a + b) == Lower(a) + Lower(b)
  {
  }

  lemma LowerSlice(s: string, i: nat, j: nat)
    requires i <= j <= |s|
    ensures Lower(s[i..j]) == Lower(s)[i..j]
  {
  }

  /** Lowering a capitalized string is lowering it. */
  lemma LowerCapitalize(s: string)
    ensures Lower(Capitalize(s)) == Lower(s)
  {
    if s != [] {
      assert ToLowerChar(ToUpperChar(s[0])) == ToLowerChar(s[0]);
      assert Lower(Capitalize(s))[0] == Lower(s)[0];
      LowerIdempotent(s[1..]);
      assert Capitalize(s) == [ToUpperChar(s[0])] + Lower(s[1..]);
      LowerAppend([ToUpperChar(s[0])], Lower(s[1..]));
      LowerAppend([s[0]], s[1..]);
      assert s == [s[0]] + s[1..];
    }
  }

  /** Case mapping leaves characters that are not letters where they are, and creates none. */
  lemma CapitalizeAvoids(s: string, c: char)
    requires !IsUpperLetter(c) && !IsLowerLetter(c) && c !in s
    ensures c !in Capitalize(s)
  {
    if s != [] {
      assert Capitalize(s) == [ToUpperChar(s[0])] + Lower(s[1..]);
      forall i | 0 <= i < |s| - 1 ensures Lower(s[1..])[i] != c {
        assert s[1..][i] in s;
      }
    }
  }

  /** Capitalizing twice is capitalizing once. */
  lemma CapitalizeIdempotent(s: string)
    ensures Capitalize(Capitalize(s)) == Capitalize(s)
  {
    if s != [] {
      var c := Capitalize(s);
      assert c[1..] == Lower(s[1..]);
      LowerIdempotent(s[1..]);
      assert ToUpperChar(ToUpperChar(s[0])) == ToUpperChar(s[0]);
      assert Capitalize(c) == [ToUpperChar(c[0])] + Lower(c[1..]);
    }
  }

  /** Capitalization commutes with dropping a tail. */
  lemma CapitalizePrefix(s: string, n: nat)
    requires n <= |s|
    ensures Capitalize(s)[..n] == Capitalize(s[..n])
  {
    if n > 0 {
      assert s[..n][1..] == s[1..][..n - 1];
      assert Lower(s[1..])[..n - 1] == Lower(s[1..][..n - 1]);
    }
  }

  // --------------------------------------------------------------- whitespace

  /** Python's `str.isspace()` for one character. */
  predicate IsSpace(c: char) {
    ('\t' <= c <= '\r') || ('\U{1C}' <= c <= '\U{1F}') || c == ' ' || c == '\U{85}' || c == '\U{A0}'
    || c == '\U{1680}' || ('\U{2000}' <= c <= '\U{200A}') || c == '\U{2028}' || c == '\U{2029}'
    || c == '\U{202F}' || c == '\U{205F}' || c == '\U{3000}'
  }

  /** Length of the leading run of non-whitespace characters. */
  function WordLength(s: string): (n: nat)
    ensures n <= |s|
    ensures forall i :: 0 <= i < n ==> !IsSpace(s[i])
    ensures n < |s| ==> IsSpace(s[n])
  {
    if s == [] || IsSpace(s[0]) then 0 else 1 + WordLength(s[1..])
  }

  /** `s.split()`: the maximal runs of non-whitespace characters, in order. */
  function SplitWhitespace(s: string): (r: seq<string>)
    ensures forall k :: 0 <= k < |r| ==> r[k] != [] && forall i :: 0 <= i < |r[k]| ==> !IsSpace(r[k][i])
    decreases |s|
  {
    if s == [] then []
    else if IsSpace(s[0]) then SplitWhitespace(s[1..])
    else
      var n := WordLength(s);
      [s[..n]] + SplitWhitespace(s[n..])
  }

  /** `s.strip()` */
  function Strip(s: string): (r: string)
    ensures |r| <= |s|
    ensures (forall i :: 0 <= i < |s| ==> !IsSpace(s[i])) ==> r == s
  {
    StripRight(StripLeft(s))
  }

  function StripLeft(s: string): (r: string)
    ensures |r| <= |s|
    ensures s != [] && !IsSpace(s[0]) ==> r == s
  {
    if s != [] && IsSpace(s[0]) then StripLeft(s[1..]) else s
  }

  function StripRight(s: string): (r: string)
    ensures |r| <= |s|
    ensures s != [] && !IsSpace(s[|s| - 1]) ==> r == s
  {
    if s != [] && IsSpace(s[|s| - 1]) then StripRight(s[..|s| - 1]) else s
  }

  // ------------------------------------------------------------------ slicing

  /** The index that Python uses for a slice bound `k` on a sequence of length `n`. */
  function SliceIndex(n: nat, k: int): (r: nat)
    ensures r <= n
    ensures 0 <= k <= n ==> r == k
    ensures k > n ==> r == n
    ensures k < 0 ==> r == if n + k < 0 then 0 else n + k
  {
    if k < 0 then (if n + k < 0 then 0 else n + k) else if k > n then n else k
  }

  /** `s[:k]` */
  function Take(s: string, k: int): (r: string)
    ensures r <= s
  {
    s[..SliceIndex(|s|, k)]
  }

  /** `s[k:]` */
  function Drop(s: string, k: int): (r: string)
    ensures |r| <= |s|
    ensures Take(s, k) + r == s
  {
    s[SliceIndex(|s|, k)..]
  }

  // ---------------------------------------------------- integers and strings

  predicate IsDigit(c: char) { '0' <= c <= '9' }

  function DigitValue(c: char): (r: nat)
    ensures r < 10
  {
    if IsDigit(c) then c as int - '0' as int else 0
  }

  function DigitChar(d: nat): (c: char)
    requires d < 10
    ensures IsDigit(c) && DigitValue(c) == d
  {
    ('0' as int + d) as char
  }

  /** The value of a run of decimal digits, skipping the underscores Python allows between them. */
  function DigitsValue(s: string): nat
  {
    if s == [] then 0
    else if s[|s| - 1] == '_' then DigitsValue(s[..|s| - 1])
    else DigitsValue(s[..|s| - 1]) * 10 + DigitValue(s[|s| - 1])
  }

  /** `str(n)` for a natural number. */
  function NatToString(n: nat): (r: string)
    ensures |r| >= 1
    ensures forall i :: 0 <= i < |r| ==> IsDigit(r[i])
    ensures DigitsValue(r) == n
    ensures r[0] == '0' ==> n == 0
  {
    if n < 10 then [DigitChar(n)]
    else
      var front := NatToString(n / 10);
      assert (front + [DigitChar(n % 10)])[..|front|] == front;
      front + [DigitChar(n % 10)]
  }

  /** `str(i)` for an integer. */
  function IntToString(i: int): (r: string)
    ensures |r| >= 1
    ensures i >= 0 ==> r == NatToString(i)
    ensures i < 0 ==> r == "-" + NatToString(-i)
  {
    if i < 0 then "-" + NatToString(-i) else NatToString(i)
  }

  /** The digits Python's `int()` accepts after the sign: `[0-9](_?[0-9])*`. */
  predicate IsDigitGroup(s: string) {
    |s| > 0 && IsDigit(s[0])
    && forall i :: 0 <= i < |s| ==> IsDigit(s[i]) || (s[i] == '_' && i + 1 < |s| && IsDigit(s[i + 1]))
  }

  /**
   * `int(s)` for a `str` argument in base 10: surrounding whitespace is ignored, an
   * optional sign, then digits with single underscores between them; anything else is
   * a ValueError, here `None`.
   */
  function ParseInt(s: string): (r: Option<int>)
    ensures r.Some? ==> Strip(s) != [] && (IsDigitGroup(Strip(s)) || IsDigitGroup(Strip(s)[1..]))
  {
    var t := Strip(s);
    if |t| > 0 && (t[0] == '-' || t[0] == '+') then
      var v: int := DigitsValue(t[1..]);
      if IsDigitGroup(t[1..]) then Some(if t[0] == '-' then -v else v) else None
    else if IsDigitGroup(t) then Some(DigitsValue(t))
    else None
  }

  /** `int(str(i)) == i` */
  lemma ParseIntToString(i: int)
    ensures ParseInt(IntToString(i)) == Some(i)
  {
    var s := IntToString(i);
    var d := NatToString(if i < 0 then -i else i);
    assert !IsSpace(s[0]) && !IsSpace(s[|s| - 1]);
    assert Strip(s) == s by {
      assert StripLeft(s) == s;
    }
    if i < 0 {
      assert s[1..] == d;
    }
  }

  /** Python's `format` of an optional string: a missing value prints as "None". */
  function Shown(s: Option<string>): string {
    if s.Some? then s.value else "None"
  }

  /** Python truthiness of an optional string: present and non-empty. */
  predicate Given(s: Option<string>) {
    s.Some? && s.value != ""
  }

  // ------------------------------------------------------------ word classes

  /**
   * Characters matched by `\w` in a Python `str` pattern, for ASCII and Latin-1:
   * letters, digits (including the Latin-1 superscripts and fractions) and `_`.
   */
  predicate IsWordChar(c: char) {
    ('a' <= c <= 'z') || ('A' <= c <= 'Z') || ('0' <= c <= '9') || c == '_'
    || c == '\U{AA}' || c == '\U{B2}' || c == '\U{B3}' || c == '\U{B5}' || c == '\U{B9}' || c == '\U{BA}'
    || ('\U{BC}' <= c <= '\U{BE}') || ('\U{C0}' <= c <= '\U{FF}' && c != '\U{D7}' && c != '\U{F7}')
  }
}
