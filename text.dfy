/**
 * String and sequence primitives with the meaning the JavaScript built-ins
 * have in the modelled code: `toLowerCase` (restricted to ASCII), `trim`,
 * `startsWith`, `endsWith`, `includes`, `split`, `join`, `substring`,
 * and the array searches `find`, `findIndex` and `filter`.
 */
module Text {

  datatype Option<T> = None | Some(value: T)

  // ---------------------------------------------------------------------
  // Characters

  /** The characters `String.prototype.trim` removes: JavaScript's
      WhiteSpace and LineTerminator code points. */
  predicate IsWhitespace(c: char) {
    c == ' ' || c == '\t' || c == '\n' || c == '\r' || c == '\U{000B}' || c == '\U{000C}'
    || c == '\U{00A0}' || c == '\U{FEFF}' || c == '\U{1680}'
    || ('\U{2000}' <= c <= '\U{200A}')
    || c == '\U{2028}' || c == '\U{2029}' || c == '\U{202F}' || c == '\U{205F}' || c == '\U{3000}'
  }

  /** Case folding restricted to ASCII letters. */
  function LowerChar(c: char): char {
    if 'A' <= c <= 'Z' then (c as int + 32) as char else c
  }

  function UpperChar(c: char): char {
    if 'a' <= c <= 'z' then (c as int - 32) as char else c
  }

  function ToLower(s: string): (r: string)
    ensures |r| == |s|
    ensures forall i :: 0 <= i < |s| ==> r[i] == LowerChar(s[i])
  {
    seq(|s|, i requires 0 <= i < |s| => LowerChar(s[i]))
  }

  lemma LowerCharIdempotent(c: char)
    ensures LowerChar(LowerChar(c)) == LowerChar(c)
  {
  }

  /** Lower-casing twice is lower-casing once. */
  lemma ToLowerIdempotent(s: string)
    ensures ToLower(ToLower(s)) == ToLower(s)
  {
    forall i | 0 <= i < |s| ensures ToLower(ToLower(s))[i] == ToLower(s)[i] {
      LowerCharIdempotent(s[i]);
    }
  }

  lemma UpperOfLower(c: char)
    ensures UpperChar(LowerChar(c)) == UpperChar(c)
    ensures LowerChar(UpperChar(c)) == LowerChar(c)
  {
  }

  /** Capitalising changes case only. */
  lemma LowerOfCapitalize(s: string)
    ensures ToLower(Capitalize(s)) == ToLower(s)
  {
    if s != [] {
      UpperOfLower(s[0]);
      ToLowerIdempotent(s[1..]);
      assert ToLower(s) == [LowerChar(s[0])] + ToLower(s[1..]);
      assert ToLower(Capitalize(s)) == [LowerChar(UpperChar(s[0]))] + ToLower(ToLower(s[1..]));
    }
  }

  lemma ToLowerSlice(s: string, i: nat, j: nat)
    requires i <= j <= |s|
    ensures ToLower(s[i..j]) == ToLower(s)[i..j]
  {
  }

  /** First character upper-cased, the rest lower-cased. */
  function Capitalize(s: string): (r: string)
    ensures |r| == |s|
    ensures s != [] ==> r[0] == UpperChar(s[0]) && r[1..] == ToLower(s[1..])
  {
    if s == [] then [] else [UpperChar(s[0])] + ToLower(s[1..])
  }

  // ---------------------------------------------------------------------
  // Prefixes, suffixes, substrings

  predicate StartsWith(s: string, p: string) {
    |p| <= |s| && s[..|p|] == p
  }

  predicate EndsWith(s: string, p: string) {
    |p| <= |s| && s[|s| - |p|..] == p
  }

  /** `p` occurs in `s` at position `i`. */
  predicate MatchAt(s: string, p: string, i: int) {
    0 <= i && i + |p| <= |s| && s[i..i + |p|] == p
  }

  /** `s.includes(p)`. */
  predicate Contains(s: string, p: string) {
    exists i | 0 <= i <= |s| - |p| :: MatchAt(s, p, i)
  }

  lemma ContainsEmpty(s: string)
    ensures Contains(s, "")
  {
    assert MatchAt(s, "", 0);
  }

  /** An occurrence inside a slice is an occurrence in the whole string. */
  lemma ContainsInSlice(s: string, p: string, i: nat, j: nat)
    requires i <= j <= |s| && Contains(s[i..j], p)
    ensures Contains(s, p)
  {
    var k :| 0 <= k <= |s[i..j]| - |p| && MatchAt(s[i..j], p, k);
    assert i + k + |p| <= j;
    var t := s[i..j];
    forall m | 0 <= m < |p| ensures s[i + k + m] == p[m] {
      assert t[k..k + |p|][m] == t[k + m];
    }
    assert s[i + k..i + k + |p|] == p;
    assert MatchAt(s, p, i + k);
  }

  /** `s.slice(0, n)` or `s.substring(0, n)`. */
  function Take<T>(s: seq<T>, n: nat): (r: seq<T>)
    ensures |r| == if n <= |s| then n else |s|
    ensures r == s[..|r|]
  {
    if n <= |s| then s[..n] else s
  }

  // ---------------------------------------------------------------------
  // Trimming

  predicate AllWhitespace(s: string) {
    forall k :: 0 <= k < |s| ==> IsWhitespace(s[k])
  }

  function LeadingSpace(s: string): (n: nat)
    ensures n <= |s| && AllWhitespace(s[..n])
    ensures n < |s| ==> !IsWhitespace(s[n])
    decreases |s|
  {
    if |s| > 0 && IsWhitespace(s[0]) then
      var n := 1 + LeadingSpace(s[1..]);
      n
    else 0
  }

  function TrailingSpace(s: string): (n: nat)
    ensures n <= |s| && AllWhitespace(s[|s| - n..])
    ensures n < |s| ==> !IsWhitespace(s[|s| - n - 1])
    decreases |s|
  {
    if |s| > 0 && IsWhitespace(s[|s| - 1]) then
      var n := 1 + TrailingSpace(s[..|s| - 1]);
      n
    else 0
  }

  /** `r` is `s` with the whitespace prefix `s[..i]` and a whitespace suffix removed. */
  predicate TrimmedAt(s: string, r: string, i: int) {
    MatchAt(s, r, i) && AllWhitespace(s[..i]) && AllWhitespace(s[i + |r|..])
  }

  /** `s.trim()`: whitespace is removed from both ends and nothing else. */
  function Trim(s: string): (r: string)
    ensures exists i :: TrimmedAt(s, r, i)
    ensures r != [] ==> !IsWhitespace(r[0]) && !IsWhitespace(r[|r| - 1])
  {
    var i := LeadingSpace(s);
    var t := s[i..];
    var n := TrailingSpace(t);
    var r := t[..|t| - n];
    assert s[i..i + |r|] == r;
    assert s[i + |r|..] == t[|t| - n..];
    assert TrimmedAt(s, r, i);
    r
  }

  /** Trimming keeps a first character that is not whitespace. */
  lemma TrimKeepsFirst(s: string)
    requires |s| > 0 && !IsWhitespace(s[0])
    ensures |Trim(s)| > 0 && Trim(s)[0] == s[0]
  {
    var r := Trim(s);
    var i :| TrimmedAt(s, r, i);
    assert r[0] == s[i..i + |r|][0];
  }

  /** Every occurrence of `c` removed (`s.replace(/c/g, '')`). */
  function RemoveChar(s: string, c: char): (r: string)
    ensures c !in r
    ensures forall x :: x in r <==> x in s && x != c
    ensures |r| <= |s|
  {
    if s == [] then []
    else (if s[0] == c then [] else [s[0]]) + RemoveChar(s[1..], c)
  }

  /** Removal works character by character and keeps the order: a single
      character is dropped exactly when it is `c`, and removal from a
      concatenation is the concatenation of the removals. */
  lemma {:induction false} RemoveCharAppend(a: string, b: string, c: char)
    ensures RemoveChar(a + b, c) == RemoveChar(a, c) + RemoveChar(b, c)
    decreases |a|
  {
    if a != [] {
      assert (a + b)[0] == a[0];
      assert (a + b)[1..] == a[1..] + b;
      RemoveCharAppend(a[1..], b, c);
    } else {
      assert a + b == b;
    }
  }

  lemma RemoveCharOne(x: char, c: char)
    ensures RemoveChar([x], c) == if x == c then [] else [x]
  {
    assert [x][1..] == [];
  }

  /** One occurrence of `c` between two texts is dropped. */
  lemma RemoveCharDropsOne(a: string, b: string, c: char)
    ensures RemoveChar(a + [c] + b, c) == RemoveChar(a, c) + RemoveChar(b, c)
  {
    var cb := [c] + b;
    assert a + [c] + b == a + cb;
    RemoveCharAppend(a, cb, c);
    RemoveCharAppend([c], b, c);
    RemoveCharOne(c, c);
    var rb := RemoveChar(b, c);
    assert RemoveChar(cb, c) == [] + rb;
    assert [] + rb == rb;
  }

  /** A text without `c` is left as it is. */
  lemma {:induction false} RemoveCharAbsent(s: string, c: char)
    requires c !in s
    ensures RemoveChar(s, c) == s
    decreases |s|
  {
    if s != [] {
      assert c !in s[1..] by {
        forall k | 0 <= k < |s[1..]| ensures s[1..][k] != c {
          assert s[1..][k] == s[k + 1];
        }
      }
      RemoveCharAbsent(s[1..], c);
      assert s == [s[0]] + s[1..];
    }
  }

  // ---------------------------------------------------------------------
  // Splitting and joining

  /** `s.split(sep)` for a one-character separator: the pieces between
      separators, so there is always one more piece than separators. */
  function Split(s: string, sep: char): (r: seq<string>)
    ensures |r| >= 1
    ensures forall k :: 0 <= k < |r| ==> sep !in r[k]
    decreases |s|
  {
    if s == [] then [""]
    else if s[0] == sep then [""] + Split(s[1..], sep)
    else
      var rest := Split(s[1..], sep);
      [[s[0]] + rest[0]] + rest[1..]
  }

  /** `parts.join(sep)`. */
  function Join(parts: seq<string>, sep: string): string
    decreases |parts|
  {
    if |parts| == 0 then ""
    else if |parts| == 1 then parts[0]
    else parts[0] + sep + Join(parts[1..], sep)
  }

  lemma {:induction false} JoinSnoc(parts: seq<string>, x: string, sep: string)
    requires |parts| >= 1
    ensures Join(parts + [x], sep) == Join(parts, sep) + sep + x
    decreases |parts|
  {
    if |parts| > 1 {
      JoinSnoc(parts[1..], x, sep);
      assert (parts + [x])[1..] == parts[1..] + [x];
    }
  }

  /** Joining the pieces of a split gives the string back. */
  lemma {:induction false} JoinSplit(s: string, sep: char)
    ensures Join(Split(s, sep), [sep]) == s
    decreases |s|
  {
    if s == [] {
    } else if s[0] == sep {
      JoinSplit(s[1..], sep);
      assert s == [sep] + s[1..];
    } else {
      JoinSplit(s[1..], sep);
      var rest := Split(s[1..], sep);
      if |rest| == 1 {
        assert s == [s[0]] + s[1..];
      } else {
        assert Join(rest, [sep]) == rest[0] + [sep] + Join(rest[1..], [sep]);
        assert s == [s[0]] + s[1..];
      }
    }
  }

  /** Splitting a join of separator-free pieces gives the pieces back. */
  lemma {:induction false} SplitJoin(parts: seq<string>, sep: char)
    requires |parts| >= 1
    requires forall k :: 0 <= k < |parts| ==> sep !in parts[k]
    ensures Split(Join(parts, [sep]), sep) == parts
    decreases |parts|, |parts[0]|
  {
    if |parts| == 1 {
      SplitNoSep(parts[0], sep);
    } else if parts[0] == [] {
      SplitJoin(parts[1..], sep);
      assert Join(parts, [sep]) == [sep] + Join(parts[1..], [sep]);
      assert parts == [""] + parts[1..];
    } else {
      var tail := [parts[0][1..]] + parts[1..];
      SplitJoin(tail, sep);
      assert tail[1..] == parts[1..];
      assert Join(tail, [sep]) == parts[0][1..] + [sep] + Join(parts[1..], [sep]);
      var j := Join(parts, [sep]);
      assert j == [parts[0][0]] + Join(tail, [sep]);
      assert j[1..] == Join(tail, [sep]);
      assert parts[0] == [parts[0][0]] + parts[0][1..];
    }
  }

  lemma {:induction false} SplitNoSep(s: string, sep: char)
    requires sep !in s
    ensures Split(s, sep) == [s]
    decreases |s|
  {
    if s != [] {
      SplitNoSep(s[1..], sep);
      assert s == [s[0]] + s[1..];
    }
  }

  // ---------------------------------------------------------------------
  // Searching and filtering sequences

  /** `s.findIndex(p)` as an option: the first position that satisfies `p`. */
  function FindFirst<T>(s: seq<T>, p: T -> bool): (r: Option<nat>)
    ensures r.Some? ==> r.value < |s| && p(s[r.value])
    ensures r.Some? ==> forall j :: 0 <= j < r.value ==> !p(s[j])
    ensures r.None? <==> forall j :: 0 <= j < |s| ==> !p(s[j])
    decreases |s|
  {
    if s == [] then None
    else if p(s[0]) then Some(0)
    else match FindFirst(s[1..], p)
         case None => None
         case Some(k) => Some(k + 1)
  }

  /** `i` is the first index of `s` whose element satisfies `p`. */
  predicate FirstAt<T>(s: seq<T>, p: T -> bool, i: int) {
    0 <= i < |s| && p(s[i]) && forall j :: 0 <= j < i ==> !p(s[j])
  }

  lemma FirstAtIsFindFirst<T>(s: seq<T>, p: T -> bool, i: int)
    requires FirstAt(s, p, i)
    ensures FindFirst(s, p) == Some(i)
  {
  }

  /** If some element satisfies `p`, a first one does. */
  lemma {:induction false} FirstSatisfying<T>(s: seq<T>, p: T -> bool, i: int)
    requires 0 <= i < |s| && p(s[i])
    ensures exists k :: FirstAt(s, p, k)
    decreases i
  {
    if exists j :: 0 <= j < i && p(s[j]) {
      var j :| 0 <= j < i && p(s[j]);
      FirstSatisfying(s, p, j);
    } else {
      assert FirstAt(s, p, i);
    }
  }

  /** Containment is transitive: what occurs in a piece of `s` occurs in `s`. */
  lemma ContainsTransitive(s: string, p: string, q: string)
    requires Contains(s, p) && Contains(p, q)
    ensures Contains(s, q)
  {
    var i :| 0 <= i <= |s| - |p| && MatchAt(s, p, i);
    assert s[i..i + |p|] == p;
    ContainsInSlice(s, q, i, i + |p|);
  }

  /** A match fixes each character of the matched text. */
  lemma MatchAtChar(s: string, p: string, i: int, k: int)
    requires 0 <= k < |p|
    ensures MatchAt(s, p, i) ==> s[i + k] == p[k]
  {
    if MatchAt(s, p, i) {
      assert s[i..i + |p|][k] == s[i + k];
    }
  }

  /** `s.filter(p)`. */
  function Filter<T>(s: seq<T>, p: T -> bool): (r: seq<T>)
    ensures |r| <= |s|
    ensures forall k :: 0 <= k < |r| ==> r[k] in s && p(r[k])
    ensures forall k :: 0 <= k < |s| && p(s[k]) ==> s[k] in r
    decreases |s|
  {
    if s == [] then []
    else (if p(s[0]) then [s[0]] else []) + Filter(s[1..], p)
  }

  /** Filtering keeps something exactly when some element satisfies the test. */
  lemma FilterNonEmpty<T>(s: seq<T>, p: T -> bool)
    ensures Filter(s, p) != [] <==> exists k :: 0 <= k < |s| && p(s[k])
  {
    var r := Filter(s, p);
    if r != [] {
      assert r[0] in s && p(r[0]);
      var k :| 0 <= k < |s| && s[k] == r[0];
      assert p(s[k]);
    }
    if k :| 0 <= k < |s| && p(s[k]) {
      assert s[k] in r;
    }
  }

  lemma {:induction false} FilterAppend<T>(a: seq<T>, b: seq<T>, p: T -> bool)
    ensures Filter(a + b, p) == Filter(a, p) + Filter(b, p)
    decreases |a|
  {
    if a == [] {
      assert a + b == b;
    } else {
      var ab := a + b;
      assert ab[0] == a[0] && ab[1..] == a[1..] + b;
      FilterAppend(a[1..], b, p);
      var head := if p(a[0]) then [a[0]] else [];
      assert Filter(ab, p) == head + Filter(a[1..] + b, p);
      assert Filter(a, p) == head + Filter(a[1..], p);
      assert head + (Filter(a[1..], p) + Filter(b, p)) == (head + Filter(a[1..], p)) + Filter(b, p);
    }
  }

  // ---------------------------------------------------------------------
  // Sequence bookkeeping

  /** Every element satisfies `p`. */
  predicate Every<T>(s: seq<T>, p: T -> bool) {
    forall k :: 0 <= k < |s| ==> p(s[k])
  }

  lemma EveryInit<T>(s: seq<T>, p: T -> bool)
    requires Every(s, p) && |s| > 0
    ensures Every(s[..|s| - 1], p) && p(s[|s| - 1])
  {
    assert forall k :: 0 <= k < |s| - 1 ==> s[..|s| - 1][k] == s[k];
  }

  lemma EveryAppend<T>(a: seq<T>, b: seq<T>, p: T -> bool)
    ensures Every(a + b, p) <==> Every(a, p) && Every(b, p)
  {
    if Every(a + b, p) {
      assert forall k :: 0 <= k < |a| ==> (a + b)[k] == a[k];
      assert forall k :: 0 <= k < |b| ==> (a + b)[|a| + k] == b[k];
    }
  }

  /** Splitting off the last element. */
  lemma SnocParts<T>(s: seq<T>)
    requires |s| > 0
    ensures s == s[..|s| - 1] + [s[|s| - 1]]
  {
  }

  lemma AppendSnoc<T>(a: seq<T>, b: seq<T>, x: T)
    ensures a + (b + [x]) == (a + b) + [x]
  {
  }

  lemma SnocPrefix<T>(s: seq<T>, x: T)
    ensures (s + [x])[..|s|] == s && (s + [x])[|s|] == x
  {
  }

  // ---------------------------------------------------------------------
  // Lines and case

  /** Lower-casing leaves line breaks where they are: the lines of the
      lowered text are the lowered lines. */
  lemma {:induction false} LowerLines(s: string)
    ensures |Split(ToLower(s), '\n')| == |Split(s, '\n')|
    ensures forall k :: 0 <= k < |Split(s, '\n')| ==> Split(ToLower(s), '\n')[k] == ToLower(Split(s, '\n')[k])
    decreases |s|
  {
    if s != [] {
      var low := ToLower(s);
      ToLowerSlice(s, 1, |s|);
      assert low[1..] == ToLower(s[1..]);
      LowerLines(s[1..]);
      if s[0] != '\n' {
        var rest, restLow := Split(s[1..], '\n'), Split(ToLower(s[1..]), '\n');
        assert low[0] != '\n';
        assert ToLower([s[0]] + rest[0]) == [low[0]] + restLow[0];
      }
    }
  }

  lemma ContainsCons(c: char, x: string, p: string)
    requires Contains(x, p)
    ensures Contains([c] + x, p)
  {
    var j :| 0 <= j <= |x| - |p| && MatchAt(x, p, j);
    assert ([c] + x)[j + 1..j + 1 + |p|] == x[j..j + |p|];
    assert MatchAt([c] + x, p, j + 1);
  }

  /** A separator-free prefix stays inside the first piece. */
  lemma {:induction false} PrefixInFirstPiece(t: string, p: string, sep: char)
    requires StartsWith(t, p) && sep !in p
    ensures StartsWith(Split(t, sep)[0], p)
    decreases |t|
  {
    if p != [] {
      assert t[0] == p[0];
      assert StartsWith(t[1..], p[1..]) by {
        assert t[1..][..|p| - 1] == t[..|p|][1..];
      }
      PrefixInFirstPiece(t[1..], p[1..], sep);
      var rest := Split(t[1..], sep);
      assert Split(t, sep)[0] == [t[0]] + rest[0];
      assert ([t[0]] + rest[0])[..|p|] == [t[0]] + rest[0][..|p| - 1];
      assert p == [p[0]] + p[1..];
    }
  }

  /** A separator-free string that occurs in the text occurs in one of
      its pieces. */
  lemma {:induction false} ContainsInSomePiece(t: string, p: string, sep: char)
    requires Contains(t, p) && sep !in p
    ensures exists k :: 0 <= k < |Split(t, sep)| && Contains(Split(t, sep)[k], p)
    decreases |t|
  {
    var i :| 0 <= i <= |t| - |p| && MatchAt(t, p, i);
    var r := Split(t, sep);
    if i == 0 {
      assert StartsWith(t, p);
      PrefixInFirstPiece(t, p, sep);
      assert MatchAt(r[0], p, 0);
    } else {
      assert t[1..][i - 1..i - 1 + |p|] == t[i..i + |p|];
      assert MatchAt(t[1..], p, i - 1);
      ContainsInSomePiece(t[1..], p, sep);
      var rest := Split(t[1..], sep);
      var k :| 0 <= k < |rest| && Contains(rest[k], p);
      if t[0] == sep {
        assert r[k + 1] == rest[k];
      } else if k == 0 {
        ContainsCons(t[0], rest[0], p);
        assert r[0] == [t[0]] + rest[0];
      } else {
        assert r[k] == rest[k];
      }
    }
  }
}
