/** The parts of java.lang.String the system relies on: `compareTo`,
    `indexOf`, `split` (with its removal of trailing empty strings), `trim`,
    `replace` and joining. A `string` here is a sequence of Unicode scalar
    values; Java holds the same text as UTF-16 code units, and `compareTo`
    works on those, so the comparison below goes through `Utf16`. */
module Strings {
  import opened Wrappers

  /** The UTF-16 code units of one scalar value: itself below U+10000,
      otherwise a high surrogate followed by a low surrogate. */
  function CodeUnits(c: char): (r: seq<int>)
    ensures |r| == 1 <==> c as int < 0x1_0000
    ensures |r| == 1 ==> r[0] == c as int && (r[0] < 0xD800 || 0xE000 <= r[0] < 0x1_0000)
    ensures |r| == 2 ==> 0xD800 <= r[0] < 0xDC00 && 0xDC00 <= r[1] < 0xE000
    ensures |r| == 2 ==> c as int == 0x1_0000 + (r[0] - 0xD800) * 0x400 + (r[1] - 0xDC00)
  {
    var v := c as int;
    if v < 0x1_0000 then [v]
    else [0xD800 + (v - 0x1_0000) / 0x400, 0xDC00 + (v - 0x1_0000) % 0x400]
  }

  /** A string as Java stores it: its code units, character by character. */
  function Utf16(s: string): (r: seq<int>)
    ensures |s| <= |r| <= 2 * |s|
  {
    if s == [] then [] else CodeUnits(s[0]) + Utf16(s[1..])
  }

  /** The code units of a character decide the character, and a high
      surrogate never stands alone, so the encoding is injective. */
  lemma {:induction false} Utf16Injective(a: string, b: string)
    requires Utf16(a) == Utf16(b)
    ensures a == b
  {
    if a != [] && b != [] {
      var ua, ub := CodeUnits(a[0]), CodeUnits(b[0]);
      var ra, rb := Utf16(a[1..]), Utf16(b[1..]);
      assert (ua + ra)[0] == ua[0] && (ub + rb)[0] == ub[0];
      assert |ua| == |ub|;
      assert ua == (ua + ra)[..|ua|] && ub == (ub + rb)[..|ub|];
      assert ra == (ua + ra)[|ua|..] && rb == (ub + rb)[|ub|..];
      Utf16Injective(a[1..], b[1..]);
      assert a == [a[0]] + a[1..] && b == [b[0]] + b[1..];
    }
  }

  /** `String.compareTo` on the code units: the difference of the first
      differing units, or else the difference of the lengths. */
  function CompareUnits(a: seq<int>, b: seq<int>): int
  {
    if a == [] || b == [] then |a| - |b|
    else if a[0] != b[0] then a[0] - b[0]
    else CompareUnits(a[1..], b[1..])
  }

  lemma {:induction false} CompareUnitsZero(a: seq<int>, b: seq<int>)
    ensures CompareUnits(a, b) == 0 <==> a == b
  {
    if a != [] && b != [] && a[0] == b[0] {
      CompareUnitsZero(a[1..], b[1..]);
      assert a == [a[0]] + a[1..] && b == [b[0]] + b[1..];
    }
  }

  lemma {:induction false} CompareUnitsAntisymmetric(a: seq<int>, b: seq<int>)
    ensures CompareUnits(b, a) == -CompareUnits(a, b)
  {
    if a != [] && b != [] && a[0] == b[0] {
      CompareUnitsAntisymmetric(a[1..], b[1..]);
    }
  }

  lemma {:induction false} CompareUnitsTransitive(a: seq<int>, b: seq<int>, c: seq<int>)
    requires CompareUnits(a, b) < 0 && CompareUnits(b, c) < 0
    ensures CompareUnits(a, c) < 0
  {
    if a != [] && b != [] && c != [] && a[0] == b[0] && b[0] == c[0] {
      CompareUnitsTransitive(a[1..], b[1..], c[1..]);
    }
  }

  /** `String.compareTo`. */
  function CompareStrings(a: string, b: string): int
  {
    CompareUnits(Utf16(a), Utf16(b))
  }

  lemma CompareStringsZero(a: string, b: string)
    ensures CompareStrings(a, b) == 0 <==> a == b
  {
    CompareUnitsZero(Utf16(a), Utf16(b));
    if Utf16(a) == Utf16(b) {
      Utf16Injective(a, b);
    }
  }

  lemma CompareStringsAntisymmetric(a: string, b: string)
    ensures CompareStrings(b, a) == -CompareStrings(a, b)
  {
    CompareUnitsAntisymmetric(Utf16(a), Utf16(b));
  }

  lemma CompareStringsTransitive(a: string, b: string, c: string)
    requires CompareStrings(a, b) < 0 && CompareStrings(b, c) < 0
    ensures CompareStrings(a, c) < 0
  {
    CompareUnitsTransitive(Utf16(a), Utf16(b), Utf16(c));
  }

  /** The order is that of the code units, not of the scalar values: a
      character beyond U+FFFF starts with a surrogate, so it sorts before
      one in U+E000 to U+FFFF although its scalar value is larger. */
  lemma SupplementaryBeforeHighBmp()
    ensures CompareStrings("\U{10000}", "\U{FFFF}") < 0
    ensures "\U{10000}"[0] as int > "\U{FFFF}"[0] as int
  {
    assert Utf16("\U{10000}") == [0xD800, 0xDC00];
    assert Utf16("\U{FFFF}") == [0xFFFF];
  }

  /** A comparator built with `Comparator.comparing(f1).thenComparing(f2)...`:
      the first non-zero comparison of corresponding key fields. */
  function CompareFields(xs: seq<string>, ys: seq<string>): int
  {
    if xs == [] || ys == [] then |xs| - |ys|
    else if CompareStrings(xs[0], ys[0]) != 0 then CompareStrings(xs[0], ys[0])
    else CompareFields(xs[1..], ys[1..])
  }

  lemma {:induction false} CompareFieldsZero(xs: seq<string>, ys: seq<string>)
    ensures CompareFields(xs, ys) == 0 <==> xs == ys
  {
    if xs != [] && ys != [] {
      CompareStringsZero(xs[0], ys[0]);
      if xs[0] == ys[0] {
        CompareFieldsZero(xs[1..], ys[1..]);
        assert xs == [xs[0]] + xs[1..] && ys == [ys[0]] + ys[1..];
      }
    }
  }

  lemma {:induction false} CompareFieldsAntisymmetric(xs: seq<string>, ys: seq<string>)
    ensures CompareFields(ys, xs) == -CompareFields(xs, ys)
  {
    if xs != [] && ys != [] {
      CompareStringsAntisymmetric(xs[0], ys[0]);
      if CompareStrings(xs[0], ys[0]) == 0 {
        CompareFieldsAntisymmetric(xs[1..], ys[1..]);
      }
    }
  }

  lemma {:induction false} CompareFieldsTransitive(xs: seq<string>, ys: seq<string>, zs: seq<string>)
    requires CompareFields(xs, ys) < 0 && CompareFields(ys, zs) < 0
    ensures CompareFields(xs, zs) < 0
  {
    if xs != [] && ys != [] && zs != [] {
      CompareStringsZero(xs[0], ys[0]);
      CompareStringsZero(ys[0], zs[0]);
      if xs[0] == ys[0] && ys[0] == zs[0] {
        CompareFieldsTransitive(xs[1..], ys[1..], zs[1..]);
      } else if xs[0] == ys[0] {
        assert CompareStrings(xs[0], zs[0]) == CompareStrings(ys[0], zs[0]);
      } else if ys[0] == zs[0] {
        assert CompareStrings(xs[0], zs[0]) == CompareStrings(xs[0], ys[0]);
      } else {
        CompareStringsTransitive(xs[0], ys[0], zs[0]);
      }
    }
  }

  predicate StartsWith(s: string, prefix: string)
  {
    |prefix| <= |s| && s[..|prefix|] == prefix
  }

  predicate OccursAt(s: string, sep: string, i: nat)
  {
    i + |sep| <= |s| && s[i..i + |sep|] == sep
  }

  /** `indexOf` from position `from`: the first occurrence at or after it. */
  function IndexOfFrom(s: string, sep: string, from: nat): (r: Option<nat>)
    requires sep != []
    ensures r.Some? ==> from <= r.value && OccursAt(s, sep, r.value)
    ensures r.Some? ==> forall j :: from <= j < r.value ==> !OccursAt(s, sep, j)
    ensures r.None? ==> forall j :: from <= j ==> !OccursAt(s, sep, j)
    decreases |s| - from
  {
    if from + |sep| > |s| then None
    else if s[from..from + |sep|] == sep then Some(from)
    else IndexOfFrom(s, sep, from + 1)
  }

  /** `indexOf`: the first occurrence of `sep` in `s`; Java answers -1 where
      this answers None. */
  function IndexOf(s: string, sep: string): (r: Option<nat>)
    requires sep != []
    ensures r.Some? ==> OccursAt(s, sep, r.value)
    ensures r.Some? ==> forall j :: 0 <= j < r.value ==> !OccursAt(s, sep, j)
    ensures r.None? ==> forall j :: 0 <= j ==> !OccursAt(s, sep, j)
  {
    IndexOfFrom(s, sep, 0)
  }

  /** Every piece of `s` between non-overlapping occurrences of `sep`, found
      left to right, empty pieces included. */
  function SplitAll(s: string, sep: string): (parts: seq<string>)
    requires sep != []
    ensures |parts| >= 1
    decreases |s|
  {
    match IndexOf(s, sep)
    case None => [s]
    case Some(i) => [s[..i]] + SplitAll(s[i + |sep|..], sep)
  }

  function DropTrailingEmpty(parts: seq<string>): (r: seq<string>)
    ensures |r| <= |parts| && r == parts[..|r|]
    ensures r == [] || r[|r| - 1] != []
    ensures forall k :: |r| <= k < |parts| ==> parts[k] == []
  {
    if parts == [] || parts[|parts| - 1] != [] then parts
    else DropTrailingEmpty(parts[..|parts| - 1])
  }

  /** `String.split(regex)` for a regex that matches `sep` literally: the
      whole string when `sep` does not occur, otherwise the pieces between the
      occurrences with trailing empty pieces removed. */
  function JavaSplit(s: string, sep: string): (parts: seq<string>)
    requires sep != []
  {
    if IndexOf(s, sep).None? then [s] else DropTrailingEmpty(SplitAll(s, sep))
  }

  /** Joining with a separator, as `String.join` and `Collectors.joining`. */
  function Join(parts: seq<string>, sep: string): string
  {
    if parts == [] then ""
    else if |parts| == 1 then parts[0]
    else parts[0] + sep + Join(parts[1..], sep)
  }

  lemma IndexOfAfterCharFree(x: string, c: char, y: string)
    requires c !in x
    ensures IndexOf(x + [c] + y, [c]) == Some(|x|)
  {
    var s := x + [c] + y;
    assert OccursAt(s, [c], |x|);
    forall j | 0 <= j < |x| ensures !OccursAt(s, [c], j) {
      assert s[j] == x[j];
    }
  }

  lemma IndexOfCharFree(x: string, c: char)
    requires c !in x
    ensures IndexOf(x, [c]).None?
  {
    forall j | 0 <= j ensures !OccursAt(x, [c], j) {
      if j + 1 <= |x| {
        assert x[j..j + 1] == [x[j]];
      }
    }
  }

  /** Splitting the join of pieces that do not contain the separator
      character gives back every piece. */
  lemma {:induction false} SplitAllJoin(parts: seq<string>, c: char)
    requires |parts| >= 1
    requires forall k :: 0 <= k < |parts| ==> c !in parts[k]
    ensures SplitAll(Join(parts, [c]), [c]) == parts
  {
    if |parts| == 1 {
      IndexOfCharFree(parts[0], c);
    } else {
      SplitAllAfterPiece(parts[0], c, Join(parts[1..], [c]));
      SplitAllJoin(parts[1..], c);
      assert parts == [parts[0]] + parts[1..];
    }
  }

  /** A separator-free piece and a separator split off as that piece. */
  lemma SplitAllAfterPiece(x: string, c: char, rest: string)
    requires c !in x
    ensures SplitAll(x + [c] + rest, [c]) == [x] + SplitAll(rest, [c])
  {
    IndexOfAfterCharFree(x, c, rest);
    var s := x + [c] + rest;
    assert s[..|x|] == x;
    assert s[|x| + 1..] == rest;
  }

  /** `split` undoes a join of separator-free pieces exactly when the last
      piece is non-empty or there is just one piece. */
  lemma {:induction false} JavaSplitJoin(parts: seq<string>, c: char)
    requires |parts| >= 1
    requires forall k :: 0 <= k < |parts| ==> c !in parts[k]
    requires |parts| == 1 || parts[|parts| - 1] != []
    ensures JavaSplit(Join(parts, [c]), [c]) == parts
  {
    SplitAllJoin(parts, c);
    if |parts| == 1 {
      IndexOfCharFree(parts[0], c);
    } else {
      IndexOfAfterCharFree(parts[0], c, Join(parts[1..], [c]));
    }
  }

  /** With an empty last piece (and more than one piece), `split` returns
      fewer pieces than were joined. */
  lemma JavaSplitJoinDropsEmptyLast(parts: seq<string>, c: char)
    requires |parts| >= 2 && parts[|parts| - 1] == []
    requires forall k :: 0 <= k < |parts| ==> c !in parts[k]
    ensures |JavaSplit(Join(parts, [c]), [c])| < |parts|
  {
    SplitAllJoin(parts, c);
    IndexOfAfterCharFree(parts[0], c, Join(parts[1..], [c]));
  }

  lemma CharFreeBefore(s: string, c: char, n: nat)
    requires n <= |s|
    requires forall j :: 0 <= j < n ==> !OccursAt(s, [c], j)
    ensures c !in s[..n]
  {
    forall j | 0 <= j < n ensures s[j] != c {
      assert !OccursAt(s, [c], j);
      assert s[j..j + 1] == [s[j]];
    }
  }

  lemma {:induction false} SplitAllCharFree(s: string, c: char)
    ensures forall k :: 0 <= k < |SplitAll(s, [c])| ==> c !in SplitAll(s, [c])[k]
    decreases |s|
  {
    match IndexOf(s, [c])
    case None =>
      CharFreeBefore(s, c, |s|);
      assert s[..|s|] == s;
    case Some(i) =>
      CharFreeBefore(s, c, i);
      SplitAllCharFree(s[i + 1..], c);
  }

  /** The pieces `split` returns never contain the separator character, and
      when there are several the last one is non-empty. */
  lemma JavaSplitPieces(s: string, c: char)
    ensures var parts := JavaSplit(s, [c]);
      && (forall k :: 0 <= k < |parts| ==> c !in parts[k])
      && (|parts| >= 2 ==> parts[|parts| - 1] != [])
  {
    if IndexOf(s, [c]).None? {
      CharFreeBefore(s, c, |s|);
      assert s[..|s|] == s;
    } else {
      SplitAllCharFree(s, c);
    }
  }

  /** `String.trim`: drops leading and trailing code units up to ' '. */
  function TrimStart(s: string): (r: string)
    ensures |r| <= |s| && r == s[|s| - |r|..]
    ensures r == [] || r[0] > ' '
  {
    if s != [] && s[0] <= ' ' then TrimStart(s[1..]) else s
  }

  function TrimEnd(s: string): (r: string)
    ensures |r| <= |s| && r == s[..|r|]
    ensures r == [] || r[|r| - 1] > ' '
  {
    if s != [] && s[|s| - 1] <= ' ' then TrimEnd(s[..|s| - 1]) else s
  }

  function Trim(s: string): (r: string)
    ensures r == [] || (r[0] > ' ' && r[|r| - 1] > ' ')
  {
    var t := TrimStart(s);
    var r := TrimEnd(t);
    assert r != [] ==> r[0] == t[0];
    r
  }

  /** `replace` of one character by a string, applied to every occurrence. */
  function ReplaceChar(s: string, c: char, repl: string): (r: string)
    ensures c !in s ==> r == s
  {
    if s == [] then ""
    else (if s[0] == c then repl else [s[0]]) + ReplaceChar(s[1..], c, repl)
  }

  lemma Associative(x: string, y: string, z: string)
    ensures x + (y + z) == (x + y) + z
  {
  }

  lemma {:induction false} ReplaceCharConcat(a: string, b: string, c: char, repl: string)
    ensures ReplaceChar(a + b, c, repl) == ReplaceChar(a, c, repl) + ReplaceChar(b, c, repl)
  {
    if a != [] {
      var head := if a[0] == c then repl else [a[0]];
      assert (a + b)[0] == a[0] && (a + b)[1..] == a[1..] + b;
      assert ReplaceChar(a + b, c, repl) == head + ReplaceChar(a[1..] + b, c, repl);
      ReplaceCharConcat(a[1..], b, c, repl);
      Associative(head, ReplaceChar(a[1..], c, repl), ReplaceChar(b, c, repl));
    } else {
      assert a + b == b;
    }
  }
}
