/** String helpers that the repository gets from its platforms: JavaScript's
    `String.prototype.split`, `Array.prototype.join`, `parseInt` on digit
    strings and number-to-string, and C#'s `String.Split` with
    `RemoveEmptyEntries` and `String.Contains`. */
module Text {

  /** Position of the first `c` in `s`. */
  function IndexOf(s: string, c: char): (i: nat)
    requires c in s
    ensures i < |s| && s[i] == c && c !in s[..i]
  {
    if s[0] == c then 0
    else
      var j := IndexOf(s[1..], c);
      assert s[..j + 1] == [s[0]] + s[1..][..j];
      j + 1
  }

  /** `s.split(c)` for a one-character separator: every occurrence cuts, and
      empty pieces (before a leading, after a trailing or between two
      adjacent separators) are kept. */
  function Split(s: string, c: char): (parts: seq<string>)
    ensures |parts| >= 1
    ensures forall k :: 0 <= k < |parts| ==> c !in parts[k]
    decreases |s|
  {
    if c !in s then [s]
    else
      var i := IndexOf(s, c);
      [s[..i]] + Split(s[i + 1..], c)
  }

  /** `parts.join(sep)`. */
  function Join(parts: seq<string>, sep: string): string
  {
    if |parts| == 0 then ""
    else if |parts| == 1 then parts[0]
    else parts[0] + sep + Join(parts[1..], sep)
  }

  lemma SplitCons(x: string, y: string, c: char)
    requires c !in x
    ensures Split(x + [c] + y, c) == [x] + Split(y, c)
  {
    var s := x + [c] + y;
    assert s[|x|] == c;
    assert forall k :: 0 <= k < |x| ==> s[k] == x[k] != c;
    var i := IndexOf(s, c);
    assert forall k :: 0 <= k < i ==> s[..i][k] == s[k] != c;
    assert i == |x|;
    assert s[..i] == x;
    assert s[i + 1..] == y;
  }

  /** Splitting undoes joining when no piece holds the separator. */
  lemma {:induction false} SplitJoin(parts: seq<string>, c: char)
    requires |parts| >= 1
    requires forall k :: 0 <= k < |parts| ==> c !in parts[k]
    ensures Split(Join(parts, [c]), c) == parts
  {
    if |parts| > 1 {
      SplitJoin(parts[1..], c);
      SplitCons(parts[0], Join(parts[1..], [c]), c);
      assert [parts[0]] + parts[1..] == parts;
    }
  }

  /** Joining undoes splitting. */
  lemma {:induction false} JoinSplit(s: string, c: char)
    ensures Join(Split(s, c), [c]) == s
    decreases |s|
  {
    if c in s {
      var i := IndexOf(s, c);
      var rest := Split(s[i + 1..], c);
      JoinSplit(s[i + 1..], c);
      assert ([s[..i]] + rest)[1..] == rest;
      assert s == s[..i] + [c] + s[i + 1..];
    }
  }

  /** A string split into one piece is that piece. */
  lemma SplitOne(s: string, c: char)
    requires |Split(s, c)| == 1
    ensures s == Split(s, c)[0]
  {
    JoinSplit(s, c);
  }

  /** A string split into two pieces is the first, the separator and the
      second. */
  lemma SplitTwo(s: string, c: char)
    requires |Split(s, c)| == 2
    ensures s == Split(s, c)[0] + [c] + Split(s, c)[1]
  {
    var parts := Split(s, c);
    JoinSplit(s, c);
    assert Join(parts[1..], [c]) == parts[1];
  }

  /** The first occurrence of `c` is the only position holding `c` with no
      `c` before it. */
  lemma IndexOfIs(s: string, c: char, i: nat)
    requires i < |s| && s[i] == c && c !in s[..i]
    ensures IndexOf(s, c) == i
  {
    var j := IndexOf(s, c);
    assert forall k :: 0 <= k < i ==> s[..i][k] == s[k];
    assert forall k :: 0 <= k < j ==> s[..j][k] == s[k];
  }

  /** A prefix free of the separator sticks to the first piece. */
  lemma SplitPrefix(p: string, y: string, c: char)
    requires c !in p
    ensures Split(p + y, c) == [p + Split(y, c)[0]] + Split(y, c)[1..]
  {
    if c !in y {
      assert c !in p + y;
    } else {
      SplitPrefixAtSeparator(p, y, c);
    }
  }

  lemma SplitPrefixAtSeparator(p: string, y: string, c: char)
    requires c !in p && c in y
    ensures Split(p + y, c) == [p + Split(y, c)[0]] + Split(y, c)[1..]
  {
    var s := p + y;
    var i := IndexOf(y, c);
    var rest := Split(y[i + 1..], c);
    assert Split(y, c) == [y[..i]] + rest;
    assert Split(y, c)[0] == y[..i] && Split(y, c)[1..] == rest;
    ConcatSlices(p, y, i);
    IndexOfIs(s, c, |p| + i);
    assert Split(s, c) == [p + y[..i]] + rest;
  }

  /** Cutting `p + y` at a position of `y`. */
  lemma ConcatSlices<T>(p: seq<T>, y: seq<T>, i: nat)
    requires i < |y|
    ensures (p + y)[|p| + i] == y[i]
    ensures (p + y)[..|p| + i] == p + y[..i]
    ensures (p + y)[|p| + i + 1..] == y[i + 1..]
  {
  }

  /** A property of every character of the pieces and of the separator
      holds of every character of the joined text. */
  lemma {:induction false} JoinChars(parts: seq<string>, sep: string, p: char -> bool)
    requires forall k, j :: 0 <= k < |parts| && 0 <= j < |parts[k]| ==> p(parts[k][j])
    requires forall j :: 0 <= j < |sep| ==> p(sep[j])
    ensures forall j :: 0 <= j < |Join(parts, sep)| ==> p(Join(parts, sep)[j])
  {
    if |parts| > 1 {
      JoinChars(parts[1..], sep, p);
      var rest := Join(parts[1..], sep);
      assert forall j :: 0 <= j < |parts[0]| ==> p(parts[0][j]);
      assert Join(parts, sep) == parts[0] + sep + rest;
    } else if |parts| == 1 {
      assert forall j :: 0 <= j < |parts[0]| ==> p(parts[0][j]);
    }
  }

  lemma ConcatAssoc<T>(a: seq<T>, b: seq<T>, c: seq<T>)
    ensures a + b + c == a + (b + c)
  {
  }

  /** Length of the first prefix of `s` none of whose characters satisfies `p`. */
  function FirstWhere(s: string, p: char -> bool): (i: nat)
    ensures i <= |s|
    ensures forall k :: 0 <= k < i ==> !p(s[k])
    ensures i < |s| ==> p(s[i])
  {
    if |s| == 0 || p(s[0]) then 0 else 1 + FirstWhere(s[1..], p)
  }

  /** Length of the run of characters satisfying `p` that starts `s`. */
  function RunLength(s: string, p: char -> bool): (n: nat)
    ensures n <= |s|
    ensures forall k :: 0 <= k < n ==> p(s[k])
    ensures n < |s| ==> !p(s[n])
  {
    if |s| > 0 && p(s[0]) then 1 + RunLength(s[1..], p) else 0
  }

  /** `s.split(/x+/)`: cut at every maximal run of separator characters.
      A leading or trailing run leaves an empty first or last piece, as in
      JavaScript. */
  function SplitRuns(s: string, isSep: char -> bool): (parts: seq<string>)
    ensures |parts| >= 1
    ensures forall k, j :: 0 <= k < |parts| && 0 <= j < |parts[k]| ==> !isSep(parts[k][j])
    decreases |s|
  {
    var i := FirstWhere(s, isSep);
    if i == |s| then [s]
    else
      var n := RunLength(s[i..], isSep);
      [s[..i]] + SplitRuns(s[i + n..], isSep)
  }

  /** C#'s `StringSplitOptions.RemoveEmptyEntries`. */
  function RemoveEmpty(parts: seq<string>): (r: seq<string>)
    ensures |r| <= |parts|
    ensures forall x :: x in r <==> x in parts && |x| > 0
  {
    if |parts| == 0 then []
    else (if |parts[0]| == 0 then [] else [parts[0]]) + RemoveEmpty(parts[1..])
  }

  lemma JoinHead(parts: seq<string>, sep: string)
    requires |parts| >= 1 && |parts[0]| > 0
    ensures |Join(parts, sep)| > 0 && Join(parts, sep)[0] == parts[0][0]
  {
  }

  /** A separator-free first piece, one separator and a rest that does not
      start with a separator split into that piece and the rest's pieces. */
  lemma SplitRunsStep(f: string, sep: char, rest: string, isSep: char -> bool)
    requires isSep(sep)
    requires forall k :: 0 <= k < |f| ==> !isSep(f[k])
    requires |rest| > 0 && !isSep(rest[0])
    ensures SplitRuns(f + [sep] + rest, isSep) == [f] + SplitRuns(rest, isSep)
  {
    var s := f + [sep] + rest;
    var i := FirstWhere(s, isSep);
    assert s[|f|] == sep;
    assert forall k :: 0 <= k < |f| ==> s[k] == f[k];
    assert i == |f|;
    assert s[..i] == f;
    var n := RunLength(s[i..], isSep);
    assert s[i..][1] == rest[0];
    assert n == 1;
    assert s[i + n..] == rest;
  }

  /** Splitting at separator runs recovers fields joined by one separator,
      provided the fields are non-empty and free of separators. */
  lemma {:induction false} SplitRunsJoin(fields: seq<string>, sep: char, isSep: char -> bool)
    requires isSep(sep)
    requires |fields| >= 1
    requires forall k :: 0 <= k < |fields| ==> |fields[k]| > 0
    requires forall k, j :: 0 <= k < |fields| && 0 <= j < |fields[k]| ==> !isSep(fields[k][j])
    ensures SplitRuns(Join(fields, [sep]), isSep) == fields
  {
    var s := Join(fields, [sep]);
    var f := fields[0];
    if |fields| == 1 {
      assert forall k :: 0 <= k < |s| ==> !isSep(s[k]);
    } else {
      var rest := Join(fields[1..], [sep]);
      assert s == f + [sep] + rest;
      JoinHead(fields[1..], [sep]);
      assert rest[0] == fields[1][0];
      SplitRunsStep(f, sep, rest, isSep);
      SplitRunsJoin(fields[1..], sep, isSep);
      assert [f] + fields[1..] == fields;
    }
  }

  predicate IsDigit(c: char) { '0' <= c <= '9' }

  /** JavaScript `/^\d+$/.test(s)`: one or more ASCII digits and nothing else. */
  predicate HasOnlyDigits(s: string)
  {
    |s| > 0 && AllDigits(s)
  }

  predicate AllDigits(s: string)
  {
    forall k :: 0 <= k < |s| ==> IsDigit(s[k])
  }

  /** `parseInt(s)` for a string of decimal digits. */
  function DigitsValue(s: string): nat
    requires AllDigits(s)
  {
    if |s| == 0 then 0
    else
      assert IsDigit(s[|s| - 1]);
      assert AllDigits(s[..|s| - 1]);
      10 * DigitsValue(s[..|s| - 1]) + (s[|s| - 1] as int - '0' as int)
  }

  function DigitChar(d: nat): (c: char)
    requires d < 10
    ensures IsDigit(c) && c as int - '0' as int == d
  {
    ('0' as int + d) as char
  }

  /** JavaScript's decimal rendering of a non-negative integer. */
  function NatToString(n: nat): (s: string)
    ensures HasOnlyDigits(s)
    ensures DigitsValue(s) == n
  {
    if n < 10 then [DigitChar(n)]
    else
      var prefix := NatToString(n / 10);
      var s := prefix + [DigitChar(n % 10)];
      assert s[..|s| - 1] == prefix;
      s
  }

  /** C#'s `s.Contains(needle)`. A string only contains strings no longer
      than itself. */
  predicate Contains(s: string, needle: string)
    ensures Contains(s, needle) ==> |needle| <= |s|
    decreases |s|
  {
    needle <= s || (|s| > 0 && Contains(s[1..], needle))
  }
}
