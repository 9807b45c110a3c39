/** `getValidSplitCronValue`, the script of the job configuration page that
    prepares a cron text for the page's cron editor: it reduces the text to
    exactly five fields (minutes, hours, days, months, week days) and
    rewrites each field against its unit's range, expanding lists,
    clamping ranges and resetting what it cannot read to `*`. */
module CronEditorScript {
  import opened Wrappers
  import opened Text

  /* ---------------------------------------------------------------------
     Units.
     --------------------------------------------------------------------- */

  /** An entry of `cronElementsList`: a unit's name, its first value and
      its number of values. */
  datatype CronElement = CronElement(cronElement: string, min: nat, max: nat)

  const CronElementsList: seq<CronElement> := [
    CronElement("minutes", 0, 60),
    CronElement("hours", 0, 24),
    CronElement("days", 1, 31),
    CronElement("months", 1, 12),
    CronElement("weekDays", 0, 7)
  ]

  function FirstIndex(e: CronElement): nat { e.min }
  function LastIndex(e: CronElement): int { e.max + e.min - 1 }

  /** The units' ranges: minutes 0-59, hours 0-23, days 1-31, months 1-12,
      week days 0-6. */
  lemma UnitRanges()
    ensures |CronElementsList| == 5
    ensures FirstIndex(CronElementsList[0]) == 0 && LastIndex(CronElementsList[0]) == 59
    ensures FirstIndex(CronElementsList[1]) == 0 && LastIndex(CronElementsList[1]) == 23
    ensures FirstIndex(CronElementsList[2]) == 1 && LastIndex(CronElementsList[2]) == 31
    ensures FirstIndex(CronElementsList[3]) == 1 && LastIndex(CronElementsList[3]) == 12
    ensures FirstIndex(CronElementsList[4]) == 0 && LastIndex(CronElementsList[4]) == 6
    ensures forall i :: 0 <= i < 5 ==> FirstIndex(CronElementsList[i]) <= LastIndex(CronElementsList[i])
  {
  }

  /* ---------------------------------------------------------------------
     Text helpers of the script.
     --------------------------------------------------------------------- */

  /** The characters of the regular expression class `\s`: white space and
      line terminators. */
  predicate IsJsSpace(c: char)
  {
    var n := c as int;
    n == 0x09 || n == 0x0A || n == 0x0B || n == 0x0C || n == 0x0D || n == 0x20 || n == 0xA0
    || n == 0x1680 || (0x2000 <= n <= 0x200A) || n == 0x2028 || n == 0x2029 || n == 0x202F
    || n == 0x205F || n == 0x3000 || n == 0xFEFF
  }

  /** Hangfire's `Cron.Never()`, the text used when the input is missing or
      has the wrong number of fields. */
  const Never := "0 0 31 2 *"
  const NeverFields := ["0", "0", "31", "2", "*"]

  function Max(a: int, b: int): int { if a >= b then a else b }
  function Min(a: int, b: int): int { if a <= b then a else b }

  /** `Math.max(Math.min(x, last), first)`. */
  function Clamp(x: int, first: int, last: int): (y: int)
    requires first <= last
    ensures first <= y <= last
    ensures first <= x <= last ==> y == x
  {
    Max(Min(x, last), first)
  }

  /** Digits only, with a value in the unit's range. */
  predicate InRange(t: string, first: int, last: int)
  {
    HasOnlyDigits(t) && first <= DigitsValue(t) <= last
  }

  /** A step the script keeps: digits only, with a value in 1..last. */
  predicate StepOk(t: string, last: int)
  {
    HasOnlyDigits(t) && 1 <= DigitsValue(t) <= last
  }

  /** `[k, k + s, k + 2s, …]` up to `l`, the values the script's inner
      `for` loop pushes. */
  function Stride(k: nat, l: int, s: nat): (r: seq<nat>)
    requires s >= 1
    ensures forall x :: x in r ==> k <= x <= l
    decreases l - k
  {
    if k > l then [] else [k] + Stride(k + s, l, s)
  }

  /** The stride is exactly the values `k + m * s` not beyond `l`. */
  lemma {:induction false} StrideExact(k: nat, l: int, s: nat)
    requires s >= 1
    ensures var r := Stride(k, l, s);
      && (forall m :: 0 <= m < |r| ==> r[m] == k + m * s)
      && (k > l <==> r == [])
      && (|r| > 0 ==> r[|r| - 1] <= l < r[|r| - 1] + s)
    decreases l - k
  {
    var r := Stride(k, l, s);
    if k <= l {
      StrideExact(k + s, l, s);
      var t := Stride(k + s, l, s);
      assert r == [k] + t;
      forall m | 1 <= m < |r|
        ensures r[m] == k + m * s
      {
        assert r[m] == t[m - 1] == k + s + (m - 1) * s;
      }
    }
  }

  /* ---------------------------------------------------------------------
     One field.
     --------------------------------------------------------------------- */

  /** The values one comma-separated piece of a list field selects: an
      in-range number, the in-range part of a range `lo-hi` with an
      optional `/step` (a zero step counts as one), or nothing. */
  function ListItem(piece: string, first: nat, last: int): (r: seq<nat>)
    ensures forall x :: x in r ==> first <= x <= last
  {
    if '-' in piece then
      var dash := Split(piece, '-');
      var slash := Split(piece, '/');
      if |dash| == 2 && HasOnlyDigits(dash[0]) && HasOnlyDigits(Split(dash[1], '/')[0])
         && (|slash| == 1 || (|slash| == 2 && HasOnlyDigits(slash[1])))
      then
        Stride(Max(DigitsValue(dash[0]), first), Min(DigitsValue(Split(dash[1], '/')[0]), last),
               if |slash| == 1 then 1 else Max(DigitsValue(slash[1]), 1))
      else []
    else if InRange(piece, first, last) then [DigitsValue(piece)]
    else []
  }

  /** The values a list field selects, piece after piece. */
  function ListSelection(pieces: seq<string>, first: nat, last: int): (units: seq<nat>)
    ensures forall x :: x in units ==> first <= x <= last
  {
    if |pieces| == 0 then []
    else ListSelection(pieces[..|pieces| - 1], first, last) + ListItem(pieces[|pieces| - 1], first, last)
  }

  function NumberTexts(units: seq<nat>): (texts: seq<string>)
    ensures |texts| == |units|
    ensures forall k :: 0 <= k < |units| ==> texts[k] == NatToString(units[k]) && DigitsValue(texts[k]) == units[k]
  {
    seq(|units|, k requires 0 <= k < |units| => NatToString(units[k]))
  }

  /** `unitsSelected.join(",")`. */
  function JoinNumbers(units: seq<nat>): string
  {
    Join(NumberTexts(units), ",")
  }

  /** A field holding a comma. It is rewritten well formed: the selected
      numbers, or `*` when it selects none. */
  function ListField(value: string, first: nat, last: int): (r: string)
    ensures ValidField(r, first, last)
  {
    var units := ListSelection(Split(value, ','), first, last);
    if |units| > 0 then
      JoinNumbersValid(units, first, last);
      JoinNumbers(units)
    else "*"
  }

  /** A field holding a dash and no comma. It is rewritten well formed: the
      clamped range with its step if the step is valid, or `*`. */
  function RangeField(value: string, first: nat, last: int): (r: string)
    requires first <= last
    ensures ValidField(r, first, last)
  {
    var dash := Split(value, '-');
    var slash := Split(value, '/');
    if |dash| == 2 && HasOnlyDigits(dash[0]) && HasOnlyDigits(Split(dash[1], '/')[0])
       && DigitsValue(dash[0]) <= DigitsValue(Split(dash[1], '/')[0]) && |slash| <= 2
    then
      var lo := Clamp(DigitsValue(dash[0]), first, last);
      var hi := Clamp(DigitsValue(Split(dash[1], '/')[0]), first, last);
      var step := if |slash| == 2 && StepOk(slash[1], last) then Some(slash[1]) else None;
      RangeTextValid(lo, hi, step, first, last);
      NatToString(lo) + "-" + NatToString(hi) + (if step.Some? then "/" + step.value else "")
    else "*"
  }

  /** A field with neither comma nor dash: `*`, a number, either with an
      optional `/step`. It is rewritten well formed, and a well-formed one
      is kept. */
  function SingleField(value: string, first: nat, last: int): (r: string)
    ensures ',' !in value && '-' !in value ==> ValidField(r, first, last)
    ensures ValidSingle(value, first, last) ==> r == value
  {
    var slash := Split(value, '/');
    if (|slash| == 1 || |slash| == 2) && (InRange(slash[0], first, last) || slash[0] == "*") then
      if |slash| == 2 && !StepOk(slash[1], last) then
        NumberFieldValid(slash[0], first, last);
        slash[0]
      else value
    else "*"
  }

  /** The rewriting of one field against the unit range `first..last`.
      Whatever the input, the rewritten field is well formed for its unit. */
  function NormalizeField(value: string, first: nat, last: int): (r: string)
    requires first <= last
    ensures ValidField(r, first, last)
  {
    if ',' in value then ListField(value, first, last)
    else if '-' in value then RangeField(value, first, last)
    else SingleField(value, first, last)
  }

  /* ---------------------------------------------------------------------
     Well-formed fields: what the rewriting produces and leaves alone.
     --------------------------------------------------------------------- */

  /** A number written without leading zeros, in the unit's range. */
  predicate CanonicalNumber(t: string, first: int, last: int)
  {
    InRange(t, first, last) && NatToString(DigitsValue(t)) == t
  }

  /** Canonical in-range numbers separated by commas (the field is only
      read as a list when it holds a comma, so there are two or more). */
  predicate ValidList(f: string, first: int, last: int)
  {
    var pieces := Split(f, ',');
    forall k :: 0 <= k < |pieces| ==> CanonicalNumber(pieces[k], first, last)
  }

  /** `lo-hi` or `lo-hi/step`: canonical in-range bounds with lo <= hi and a
      step in 1..last. */
  predicate ValidRange(f: string, first: int, last: int)
  {
    var dash := Split(f, '-');
    |dash| == 2 && CanonicalNumber(dash[0], first, last)
    && var hiStep := Split(dash[1], '/');
    CanonicalNumber(hiStep[0], first, last) && DigitsValue(dash[0]) <= DigitsValue(hiStep[0])
    && (|hiStep| == 1 || (|hiStep| == 2 && StepOk(hiStep[1], last)))
  }

  /** `*` or an in-range number, optionally followed by `/step` with a step
      in 1..last. */
  predicate ValidSingle(f: string, first: int, last: int)
  {
    var slash := Split(f, '/');
    (|slash| == 1 || |slash| == 2) && (InRange(slash[0], first, last) || slash[0] == "*")
    && (|slash| == 2 ==> StepOk(slash[1], last))
  }

  predicate ValidField(f: string, first: int, last: int)
  {
    if ',' in f then ValidList(f, first, last)
    else if '-' in f then ValidRange(f, first, last)
    else ValidSingle(f, first, last)
  }

  lemma DigitsFree(t: string, c: char)
    requires HasOnlyDigits(t) && !IsDigit(c)
    ensures c !in t
  {
  }

  function DigitValues(pieces: seq<string>): (values: seq<nat>)
    requires forall k :: 0 <= k < |pieces| ==> AllDigits(pieces[k])
    ensures |values| == |pieces|
    ensures forall k :: 0 <= k < |pieces| ==> values[k] == DigitsValue(pieces[k])
  {
    if |pieces| == 0 then []
    else
      var n := |pieces| - 1;
      DigitValues(pieces[..n]) + [DigitsValue(pieces[n])]
  }

  /** Canonical numbers, read piece by piece, select their own values. */
  lemma {:induction false} ListSelectionCanonical(pieces: seq<string>, first: nat, last: int)
    requires forall k :: 0 <= k < |pieces| ==> CanonicalNumber(pieces[k], first, last)
    ensures (forall k :: 0 <= k < |pieces| ==> AllDigits(pieces[k]))
            && ListSelection(pieces, first, last) == DigitValues(pieces)
  {
    forall k | 0 <= k < |pieces|
      ensures AllDigits(pieces[k])
    {
      assert CanonicalNumber(pieces[k], first, last);
    }
    if |pieces| > 0 {
      var n := |pieces| - 1;
      ListSelectionCanonical(pieces[..n], first, last);
      DigitsFree(pieces[n], '-');
    }
  }

  /** Selected numbers, joined, make a well-formed field. */
  lemma JoinNumbersValid(units: seq<nat>, first: nat, last: int)
    requires |units| > 0
    requires forall x :: x in units ==> first <= x <= last
    ensures ValidField(JoinNumbers(units), first, last)
  {
    if |units| == 1 {
      var t := NatToString(units[0]);
      assert units[0] in units;
      assert NumberTexts(units) == [t];
      DigitsFree(t, ','); DigitsFree(t, '-'); DigitsFree(t, '/');
    } else if |units| > 1 {
      var texts := NumberTexts(units);
      var f := JoinNumbers(units);
      forall k | 0 <= k < |texts|
        ensures ',' !in texts[k] && CanonicalNumber(texts[k], first, last)
      {
        assert units[k] in units;
        DigitsFree(texts[k], ',');
      }
      SplitJoin(texts, ',');
      assert f == texts[0] + "," + Join(texts[1..], ",");
      assert f[|texts[0]|] == ',';
    }
  }

  /** How a range without a step splits. */
  lemma RangeTextPlain(a: string, b: string)
    requires HasOnlyDigits(a) && HasOnlyDigits(b)
    ensures ',' !in a + "-" + b && '-' in a + "-" + b
    ensures Split(a + "-" + b, '-') == [a, b] && Split(b, '/') == [b]
  {
    var f := a + "-" + b;
    DigitsFree(a, ','); DigitsFree(b, ','); DigitsFree(b, '-'); DigitsFree(b, '/');
    assert f[|a|] == '-';
    assert f == a + ['-'] + b;
    SplitCons(a, b, '-');
  }

  /** How a range with a step splits. */
  lemma RangeTextStepped(a: string, b: string, t: string)
    requires HasOnlyDigits(a) && HasOnlyDigits(b) && HasOnlyDigits(t)
    ensures ',' !in a + "-" + b + "/" + t && '-' in a + "-" + b + "/" + t
    ensures Split(a + "-" + b + "/" + t, '-') == [a, b + "/" + t]
    ensures Split(b + "/" + t, '/') == [b, t]
  {
    var f := a + "-" + b + "/" + t;
    DigitsFree(a, ','); DigitsFree(b, ','); DigitsFree(t, ',');
    DigitsFree(b, '-'); DigitsFree(t, '-'); DigitsFree(b, '/'); DigitsFree(t, '/');
    assert f[|a|] == '-';
    assert f == a + ['-'] + (b + ['/'] + t);
    assert '-' !in b + ['/'] + t;
    SplitCons(a, b + ['/'] + t, '-');
    SplitCons(b, t, '/');
  }

  /** The text the range branch writes for clamped bounds `lo <= hi` and
      an optional valid step is well formed. */
  lemma RangeTextValid(lo: nat, hi: nat, step: Option<string>, first: nat, last: int)
    requires first <= lo <= hi <= last
    requires step.Some? ==> StepOk(step.value, last)
    ensures ValidField(NatToString(lo) + "-" + NatToString(hi) + (if step.Some? then "/" + step.value else ""),
                       first, last)
  {
    var range := NatToString(lo) + "-" + NatToString(hi);
    if step.None? {
      PlainRangeValid(lo, hi, first, last);
      assert range + "" == range;
    } else {
      SteppedRangeValid(lo, hi, step.value, first, last);
      ConcatAssoc(range, "/", step.value);
    }
  }

  lemma PlainRangeValid(lo: nat, hi: nat, first: nat, last: int)
    requires first <= lo <= hi <= last
    ensures ValidField(NatToString(lo) + "-" + NatToString(hi), first, last)
  {
    var a := NatToString(lo);
    var b := NatToString(hi);
    assert CanonicalNumber(a, first, last) && CanonicalNumber(b, first, last);
    RangeTextPlain(a, b);
    assert ValidRange(a + "-" + b, first, last);
  }

  lemma SteppedRangeValid(lo: nat, hi: nat, t: string, first: nat, last: int)
    requires first <= lo <= hi <= last
    requires StepOk(t, last)
    ensures ValidField(NatToString(lo) + "-" + NatToString(hi) + "/" + t, first, last)
  {
    var a := NatToString(lo);
    var b := NatToString(hi);
    assert CanonicalNumber(a, first, last) && CanonicalNumber(b, first, last);
    RangeTextStepped(a, b, t);
    assert ValidRange(a + "-" + b + "/" + t, first, last);
  }

  /** `*` or an in-range number alone is a well-formed field. */
  lemma NumberFieldValid(n: string, first: nat, last: int)
    requires InRange(n, first, last) || n == "*"
    ensures ValidField(n, first, last)
  {
  }

  /** A well-formed list is left as it is. */
  lemma ListFieldKeepsValid(f: string, first: nat, last: int)
    requires ValidList(f, first, last)
    ensures ListField(f, first, last) == f
  {
    var pieces := Split(f, ',');
    ListSelectionCanonical(pieces, first, last);
    var units := ListSelection(pieces, first, last);
    assert forall k :: 0 <= k < |pieces| ==> NumberTexts(units)[k] == NatToString(DigitsValue(pieces[k])) == pieces[k];
    assert NumberTexts(units) == pieces;
    JoinSplit(f, ',');
  }

  /** A well-formed range is its low bound, a dash and the rest. */
  lemma RangeDash(f: string, first: nat, last: int)
    requires ValidRange(f, first, last)
    ensures var dash := Split(f, '-');
      var hiStep := Split(dash[1], '/');
      var tail := if |hiStep| == 2 then "/" + hiStep[1] else "";
      && dash[1] == hiStep[0] + tail
      && f == dash[0] + "-" + dash[1]
  {
    var dash := Split(f, '-');
    SplitTwo(f, '-');
    if |Split(dash[1], '/')| == 1 {
      SplitOne(dash[1], '/');
    } else {
      SplitTwo(dash[1], '/');
    }
  }

  /** A well-formed range is its low bound, a dash, its high bound and its
      step, and the step is what follows its one slash. */
  lemma RangeParts(f: string, first: nat, last: int)
    requires ValidRange(f, first, last)
    ensures var dash := Split(f, '-');
      var hiStep := Split(dash[1], '/');
      var tail := if |hiStep| == 2 then "/" + hiStep[1] else "";
      && f == dash[0] + "-" + hiStep[0] + tail
      && Split(f, '/') == [dash[0] + "-" + hiStep[0]] + hiStep[1..]
  {
    var dash := Split(f, '-');
    var lo := dash[0];
    var hiStep := Split(dash[1], '/');
    var hi := hiStep[0];
    var tail := if |hiStep| == 2 then "/" + hiStep[1] else "";
    RangeDash(f, first, last);
    ConcatAssoc(lo + "-", hi, tail);
    DigitsFree(lo, '/');
    assert '/' !in lo + "-";
    SplitPrefix(lo + "-", dash[1], '/');
  }

  /** A well-formed range is left as it is. */
  lemma RangeFieldKeepsValid(f: string, first: nat, last: int)
    requires first <= last
    requires ValidRange(f, first, last)
    ensures RangeField(f, first, last) == f
  {
    RangeParts(f, first, last);
    var dash := Split(f, '-');
    var lo := dash[0];
    var hiStep := Split(dash[1], '/');
    var hi := hiStep[0];
    assert NatToString(Clamp(DigitsValue(lo), first, last)) == lo;
    assert NatToString(Clamp(DigitsValue(hi), first, last)) == hi;
  }

  /** A well-formed field is left as it is. */
  lemma NormalizeFieldKeepsValid(f: string, first: nat, last: int)
    requires first <= last
    requires ValidField(f, first, last)
    ensures NormalizeField(f, first, last) == f
  {
    if ',' in f {
      ListFieldKeepsValid(f, first, last);
    } else if '-' in f {
      RangeFieldKeepsValid(f, first, last);
    }
  }

  /** Rewriting a field twice is rewriting it once. */
  lemma NormalizeFieldIdempotent(value: string, first: nat, last: int)
    requires first <= last
    ensures NormalizeField(NormalizeField(value, first, last), first, last) == NormalizeField(value, first, last)
  {
    NormalizeFieldKeepsValid(NormalizeField(value, first, last), first, last);
  }

  /** A field is left as it is exactly when it is well formed. */
  lemma NormalizeFieldFixedIffValid(f: string, first: nat, last: int)
    requires first <= last
    ensures NormalizeField(f, first, last) == f <==> ValidField(f, first, last)
  {
    if ValidField(f, first, last) {
      NormalizeFieldKeepsValid(f, first, last);
    }
  }

  /* ---------------------------------------------------------------------
     What a malformed field becomes.
     --------------------------------------------------------------------- */

  /** A range `a-b` with `a <= b` keeps its shape, each bound clamped into
      the unit's range. */
  lemma RangeFieldClamps(a: string, b: string, first: nat, last: int)
    requires first <= last
    requires HasOnlyDigits(a) && HasOnlyDigits(b) && DigitsValue(a) <= DigitsValue(b)
    ensures RangeField(a + "-" + b, first, last)
         == NatToString(Clamp(DigitsValue(a), first, last)) + "-" + NatToString(Clamp(DigitsValue(b), first, last))
  {
    var f := a + "-" + b;
    RangeTextPlain(a, b);
    DigitsFree(a, '/'); DigitsFree(b, '/');
    assert f == a + ['-'] + b;
    assert '/' !in f;
  }

  /** A stepped range `a-b/t` is clamped the same way; its step is kept
      when it lies in 1..last and dropped otherwise. */
  lemma RangeFieldStepped(a: string, b: string, t: string, first: nat, last: int)
    requires first <= last
    requires HasOnlyDigits(a) && HasOnlyDigits(b) && HasOnlyDigits(t) && DigitsValue(a) <= DigitsValue(b)
    ensures RangeField(a + "-" + b + "/" + t, first, last)
         == NatToString(Clamp(DigitsValue(a), first, last)) + "-" + NatToString(Clamp(DigitsValue(b), first, last))
            + (if StepOk(t, last) then "/" + t else "")
  {
    var f := a + "-" + b + "/" + t;
    RangeTextStepped(a, b, t);
    DigitsFree(a, '/'); DigitsFree(b, '/');
    assert a + "-" + b == a + ['-'] + b;
    assert '/' !in a + "-" + b;
    assert f == (a + "-" + b) + ['/'] + t;
    SplitCons(a + "-" + b, t, '/');
  }

  /** A range whose low bound exceeds its high bound becomes `*`. */
  lemma RangeFieldReversed(a: string, b: string, first: nat, last: int)
    requires first <= last
    requires HasOnlyDigits(a) && HasOnlyDigits(b) && DigitsValue(a) > DigitsValue(b)
    ensures RangeField(a + "-" + b, first, last) == "*"
  {
    RangeTextPlain(a, b);
  }

  /** Inside a list, a range piece `a-b` selects every value from the
      larger of `a` and the unit's first value up to the smaller of `b`
      and its last, in increasing order. */
  lemma ListItemRange(a: string, b: string, first: nat, last: int)
    requires HasOnlyDigits(a) && HasOnlyDigits(b)
    ensures var r := ListItem(a + "-" + b, first, last);
      && (forall x :: x in r <==> Max(DigitsValue(a), first) <= x <= Min(DigitsValue(b), last))
      && (forall m :: 0 <= m < |r| ==> r[m] == Max(DigitsValue(a), first) + m)
  {
    var f := a + "-" + b;
    RangeTextPlain(a, b);
    DigitsFree(a, '/'); DigitsFree(b, '/');
    assert f == a + ['-'] + b;
    assert '/' !in f;
    var k: nat := Max(DigitsValue(a), first);
    var l := Min(DigitsValue(b), last);
    var r := ListItem(f, first, last);
    assert r == Stride(k, l, 1);
    StrideExact(k, l, 1);
    forall x | k <= x <= l
      ensures x in r
    {
      assert r[x - k] == x;
    }
  }

  /** Inside a list, an in-range number selects itself. */
  lemma ListItemNumber(p: string, first: nat, last: int)
    requires InRange(p, first, last)
    ensures ListItem(p, first, last) == [DigitsValue(p)]
  {
  }

  lemma ListSelectionSnoc(pieces: seq<string>, p: string, first: nat, last: int)
    ensures ListSelection(pieces + [p], first, last) == ListSelection(pieces, first, last) + ListItem(p, first, last)
  {
    assert (pieces + [p])[..|pieces|] == pieces;
  }

  /** A list selects its pieces' values one piece after another. */
  lemma {:induction false} ListSelectionAppend(p1: seq<string>, p2: seq<string>, first: nat, last: int)
    ensures ListSelection(p1 + p2, first, last) == ListSelection(p1, first, last) + ListSelection(p2, first, last)
  {
    if |p2| > 0 {
      var init := p2[..|p2| - 1];
      var p := p2[|p2| - 1];
      assert p2 == init + [p];
      assert p1 + p2 == (p1 + init) + [p];
      ListSelectionSnoc(p1 + init, p, first, last);
      ListSelectionSnoc(init, p, first, last);
      ListSelectionAppend(p1, init, first, last);
      ConcatAssoc(ListSelection(p1, first, last), ListSelection(init, first, last), ListItem(p, first, last));
    } else {
      assert p1 + p2 == p1;
    }
  }

  /** A number or `*` with a step outside 1..last loses the step. */
  lemma SingleFieldDropsBadStep(n: string, t: string, first: nat, last: int)
    requires InRange(n, first, last) || n == "*"
    requires '/' !in t && !StepOk(t, last)
    ensures SingleField(n + "/" + t, first, last) == n
  {
    if n != "*" {
      DigitsFree(n, '/');
    }
    assert '/' !in n;
    assert n + "/" + t == n + ['/'] + t;
    SplitCons(n, t, '/');
  }

  /** A number outside the unit's range becomes `*`. */
  lemma SingleFieldOutOfRange(n: string, first: nat, last: int)
    requires HasOnlyDigits(n) && !(first <= DigitsValue(n) <= last)
    ensures SingleField(n, first, last) == "*"
  {
  }

  /* ---------------------------------------------------------------------
     The characters of a well-formed field.
     --------------------------------------------------------------------- */

  predicate IsCronChar(c: char) { IsDigit(c) || c == '*' || c == ',' || c == '-' || c == '/' }

  predicate CronChars(s: string) { forall j :: 0 <= j < |s| ==> IsCronChar(s[j]) }

  /** Non-empty, and made of digits, `*`, `,`, `-` and `/` only. */
  predicate CronText(s: string) { |s| > 0 && CronChars(s) }

  lemma ConcatChars(x: string, y: string)
    requires CronChars(x) && CronChars(y)
    ensures CronChars(x + y)
  {
  }

  lemma DigitsChars(t: string)
    requires HasOnlyDigits(t)
    ensures CronChars(t)
  {
  }

  lemma ListText(f: string, first: nat, last: int)
    requires ',' in f && ValidList(f, first, last)
    ensures CronText(f)
  {
    var pieces := Split(f, ',');
    forall k, j | 0 <= k < |pieces| && 0 <= j < |pieces[k]|
      ensures IsCronChar(pieces[k][j])
    {
      assert CanonicalNumber(pieces[k], first, last);
    }
    assert CanonicalNumber(pieces[0], first, last);
    JoinSplit(f, ',');
    JoinChars(pieces, ",", IsCronChar);
    JoinHead(pieces, ",");
  }

  lemma RangeText(f: string, first: nat, last: int)
    requires ValidRange(f, first, last)
    ensures CronText(f)
  {
    RangeParts(f, first, last);
    var dash := Split(f, '-');
    var hiStep := Split(dash[1], '/');
    DigitsChars(dash[0]);
    DigitsChars(hiStep[0]);
    ConcatChars(dash[0], "-");
    ConcatChars(dash[0] + "-", hiStep[0]);
    if |hiStep| == 2 {
      DigitsChars(hiStep[1]);
      ConcatChars("/", hiStep[1]);
      ConcatChars(dash[0] + "-" + hiStep[0], "/" + hiStep[1]);
    }
  }

  lemma SingleText(f: string, first: nat, last: int)
    requires ValidSingle(f, first, last)
    ensures CronText(f)
  {
    var slash := Split(f, '/');
    forall k, j | 0 <= k < |slash| && 0 <= j < |slash[k]|
      ensures IsCronChar(slash[k][j])
    {
      if k == 0 {
        if slash[0] != "*" {
          DigitsChars(slash[0]);
        }
      } else {
        DigitsChars(slash[1]);
      }
    }
    JoinSplit(f, '/');
    JoinChars(slash, "/", IsCronChar);
    JoinHead(slash, "/");
  }

  /** A well-formed field is non-empty cron text, so it holds no white
      space. */
  lemma ValidFieldText(f: string, first: nat, last: int)
    requires ValidField(f, first, last)
    ensures CronText(f)
  {
    if ',' in f {
      ListText(f, first, last);
    } else if '-' in f {
      RangeText(f, first, last);
    } else {
      SingleText(f, first, last);
    }
  }

  /* ---------------------------------------------------------------------
     The whole expression.
     --------------------------------------------------------------------- */

  lemma NeverSplit()
    ensures SplitRuns(Never, IsJsSpace) == NeverFields
  {
    assert Join(NeverFields, [' ']) == Never;
    SplitRunsJoin(NeverFields, ' ', IsJsSpace);
  }

  /** The five fields the script works on: the text split at runs of white
      space, the first (seconds) field dropped from six, and the fields of
      `Cron.Never()` for a missing text or any other count. */
  function FiveFields(cronExpressionValue: Option<string>): (fields: seq<string>)
    ensures |fields| == 5
    ensures cronExpressionValue.None? ==> fields == NeverFields
  {
    match cronExpressionValue
    case None => NeverFields
    case Some(s) =>
      var parts := SplitRuns(s, IsJsSpace);
      if |parts| == 6 then parts[1..] else if |parts| == 5 then parts else NeverFields
  }

  /** For fields written with one space between them, five are kept, six
      lose the first, and any other number gives way to `Cron.Never()`. */
  lemma FiveFieldsOfJoined(fields: seq<string>)
    requires |fields| >= 1
    requires forall k :: 0 <= k < |fields| ==> |fields[k]| > 0
    requires forall k, j :: 0 <= k < |fields| && 0 <= j < |fields[k]| ==> !IsJsSpace(fields[k][j])
    ensures FiveFields(Some(Join(fields, " "))) ==
      if |fields| == 5 then fields else if |fields| == 6 then fields[1..] else NeverFields
  {
    SplitRunsJoin(fields, ' ', IsJsSpace);
    NeverSplit();
  }

  /** `getValidSplitCronValue`: the five fields, each rewritten against its
      unit. Every field of the result is well formed for its unit. */
  function ValidSplitCronValue(cronExpressionValue: Option<string>): (r: seq<string>)
    ensures |r| == 5
    ensures forall i :: 0 <= i < 5 ==> ValidField(r[i], FirstIndex(CronElementsList[i]), LastIndex(CronElementsList[i]))
  {
    var fields := FiveFields(cronExpressionValue);
    UnitRanges();
    seq(5, i requires 0 <= i < 5 =>
      NormalizeField(fields[i], FirstIndex(CronElementsList[i]), LastIndex(CronElementsList[i])))
  }

  /** Five well-formed fields hold no white space. */
  lemma ValidFieldsSpaceFree(r: seq<string>)
    requires |r| == 5
    requires forall i :: 0 <= i < 5 ==> ValidField(r[i], FirstIndex(CronElementsList[i]), LastIndex(CronElementsList[i]))
    ensures forall k, j :: 0 <= k < 5 && 0 <= j < |r[k]| ==> !IsJsSpace(r[k][j])
  {
    UnitRanges();
    forall k | 0 <= k < 5
      ensures CronText(r[k])
    {
      ValidFieldText(r[k], FirstIndex(CronElementsList[k]), LastIndex(CronElementsList[k]));
    }
    forall k, j | 0 <= k < 5 && 0 <= j < |r[k]|
      ensures !IsJsSpace(r[k][j])
    {
      assert CronText(r[k]);
      assert IsCronChar(r[k][j]);
    }
  }

  /** Writing the result back with single spaces and running the script
      again gives the same five fields. */
  lemma ValidSplitCronValueIdempotent(cronExpressionValue: Option<string>)
    ensures var r := ValidSplitCronValue(cronExpressionValue);
      ValidSplitCronValue(Some(Join(r, " "))) == r
  {
    var r := ValidSplitCronValue(cronExpressionValue);
    UnitRanges();
    ValidFieldsSpaceFree(r);
    FiveFieldsOfJoined(r);
    var again := ValidSplitCronValue(Some(Join(r, " ")));
    forall i | 0 <= i < 5
      ensures again[i] == r[i]
    {
      NormalizeFieldKeepsValid(r[i], FirstIndex(CronElementsList[i]), LastIndex(CronElementsList[i]));
    }
  }

  /* ---------------------------------------------------------------------
     The script as it runs.
     --------------------------------------------------------------------- */

  /** `getValidSplitCronValue`, overwriting the fields one by one. */
  method GetValidSplitCronValue(cronExpressionValue: Option<string>) returns (splitCronExpression: seq<string>)
    ensures splitCronExpression == ValidSplitCronValue(cronExpressionValue)
  {
    var fields := SplitCronValue(cronExpressionValue);
    splitCronExpression := NormalizeUnits(fields);
    ghost var target := ValidSplitCronValue(cronExpressionValue);
    forall j | 0 <= j < 5
      ensures splitCronExpression[j] == target[j]
    {
      ValidSplitCronValueAt(cronExpressionValue, j);
    }
  }

  /** The first part of the script: split at runs of white space, fall
      back to `Cron.Never()` on a wrong count, drop the seconds field. */
  method SplitCronValue(cronExpressionValue: Option<string>) returns (splitCronExpression: seq<string>)
    ensures splitCronExpression == FiveFields(cronExpressionValue)
  {
    var value := if cronExpressionValue.Some? then cronExpressionValue.value else Never;
    splitCronExpression := SplitRuns(value, IsJsSpace);
    if |splitCronExpression| != 5 && |splitCronExpression| != 6 {
      value := Never;
      splitCronExpression := SplitRuns(value, IsJsSpace);
    }
    if |splitCronExpression| == 6 {
      splitCronExpression := splitCronExpression[1..];
    }
    NeverSplit();
  }

  /** The script's loop over the units: field `i` is rewritten against
      unit `i`'s range. */
  method NormalizeUnits(fields: seq<string>) returns (splitCronExpression: seq<string>)
    requires |fields| == 5
    ensures |splitCronExpression| == 5
    ensures forall j :: 0 <= j < 5 ==>
      splitCronExpression[j] == NormalizeField(fields[j], FirstIndex(CronElementsList[j]), LastIndex(CronElementsList[j]))
  {
    UnitRanges();
    splitCronExpression := fields;
    var i := 0;
    while i < |CronElementsList|
      invariant 0 <= i <= 5
      invariant |splitCronExpression| == 5
      invariant forall j :: 0 <= j < i ==>
        splitCronExpression[j] == NormalizeField(fields[j], FirstIndex(CronElementsList[j]), LastIndex(CronElementsList[j]))
      invariant forall j :: i <= j < 5 ==> splitCronExpression[j] == fields[j]
    {
      var firstIndex := CronElementsList[i].min;
      var lastIndex := CronElementsList[i].max + firstIndex - 1;
      var unitValue := ValidUnitValue(splitCronExpression[i], firstIndex, lastIndex);
      assert firstIndex == FirstIndex(CronElementsList[i]) && lastIndex == LastIndex(CronElementsList[i]);
      splitCronExpression := splitCronExpression[i := unitValue];
      i := i + 1;
    }
  }

  /** The body of the script's loop over the units: the new text of one
      field. */
  method ValidUnitValue(cronUnitValue: string, firstIndex: nat, lastIndex: int) returns (unitValue: string)
    requires firstIndex <= lastIndex
    ensures unitValue == NormalizeField(cronUnitValue, firstIndex, lastIndex)
  {
    unitValue := cronUnitValue;
    if ',' in cronUnitValue {
      var unitsSelected := SelectUnits(cronUnitValue, firstIndex, lastIndex);
      if |unitsSelected| > 0 {
        unitValue := JoinNumbers(unitsSelected);
      } else {
        unitValue := "*";
      }
      assert unitValue == ListField(cronUnitValue, firstIndex, lastIndex);
    } else if '-' in cronUnitValue {
      var dash := Split(cronUnitValue, '-');
      var slash := Split(cronUnitValue, '/');
      if |dash| == 2 && HasOnlyDigits(dash[0]) && HasOnlyDigits(Split(dash[1], '/')[0])
         && DigitsValue(dash[0]) <= DigitsValue(Split(dash[1], '/')[0]) && |slash| <= 2
      {
        var lowerBoundary := DigitsValue(dash[0]);
        var upperBoundary := DigitsValue(Split(dash[1], '/')[0]);
        unitValue := NatToString(Max(Min(lowerBoundary, lastIndex), firstIndex)) + "-"
                     + NatToString(Max(Min(upperBoundary, lastIndex), firstIndex));
        if |slash| == 2 && HasOnlyDigits(slash[1]) && DigitsValue(slash[1]) >= 1 && DigitsValue(slash[1]) <= lastIndex {
          unitValue := unitValue + "/" + slash[1];
        }
      } else {
        unitValue := "*";
      }
      assert unitValue == RangeField(cronUnitValue, firstIndex, lastIndex);
    } else {
      var slash := Split(cronUnitValue, '/');
      if (|slash| == 1 || |slash| == 2)
         && ((HasOnlyDigits(slash[0]) && DigitsValue(slash[0]) >= firstIndex && DigitsValue(slash[0]) <= lastIndex)
             || slash[0] == "*")
      {
        if |slash| == 2 {
          if !(HasOnlyDigits(slash[1]) && DigitsValue(slash[1]) >= 1 && DigitsValue(slash[1]) <= lastIndex) {
            unitValue := slash[0];
          }
        }
      } else {
        unitValue := "*";
      }
    }
  }

  lemma ValidSplitCronValueAt(cronExpressionValue: Option<string>, i: nat)
    requires i < 5
    ensures ValidSplitCronValue(cronExpressionValue)[i]
         == NormalizeField(FiveFields(cronExpressionValue)[i], FirstIndex(CronElementsList[i]), LastIndex(CronElementsList[i]))
  {
  }
  /** The values a list field selects, pushed piece by piece; a range
      piece pushes its values one step at a time. */
  method SelectUnits(cronUnitValue: string, firstIndex: nat, lastIndex: int) returns (unitsSelected: seq<nat>)
    ensures unitsSelected == ListSelection(Split(cronUnitValue, ','), firstIndex, lastIndex)
  {
    var commaSplit := Split(cronUnitValue, ',');
    unitsSelected := [];
    var j := 0;
    while j < |commaSplit|
      invariant 0 <= j <= |commaSplit|
      invariant unitsSelected == ListSelection(commaSplit[..j], firstIndex, lastIndex)
    {
      unitsSelected := SelectPiece(unitsSelected, commaSplit[j], firstIndex, lastIndex);
      assert commaSplit[..j + 1][..j] == commaSplit[..j];
      j := j + 1;
    }
    assert commaSplit[..j] == commaSplit;
  }

  /** One piece of a list field: a range pushes its stride, a number in
      bounds pushes itself, anything else pushes nothing. */
  method SelectPiece(units: seq<nat>, piece: string, firstIndex: nat, lastIndex: int) returns (unitsSelected: seq<nat>)
    ensures unitsSelected == units + ListItem(piece, firstIndex, lastIndex)
  {
    unitsSelected := units;
    if '-' in piece {
      var dash := Split(piece, '-');
      var slash := Split(piece, '/');
      if |dash| == 2 && HasOnlyDigits(dash[0]) && HasOnlyDigits(Split(dash[1], '/')[0])
         && (|slash| == 1 || (|slash| == 2 && HasOnlyDigits(slash[1])))
      {
        var k: nat := Max(DigitsValue(dash[0]), firstIndex);
        var l := Min(DigitsValue(Split(dash[1], '/')[0]), lastIndex);
        var s: nat := if |slash| == 1 then 1 else Max(DigitsValue(slash[1]), 1);
        unitsSelected := PushStride(units, k, l, s);
      }
    } else if HasOnlyDigits(piece) && DigitsValue(piece) >= firstIndex && DigitsValue(piece) <= lastIndex {
      unitsSelected := units + [DigitsValue(piece)];
    }
  }

  /** The script's innermost loop: push `k, k + s, …` while not beyond `l`. */
  method PushStride(units: seq<nat>, k0: nat, l: int, s: nat) returns (unitsSelected: seq<nat>)
    requires s >= 1
    ensures unitsSelected == units + Stride(k0, l, s)
  {
    unitsSelected := units;
    var k := k0;
    while k <= l
      invariant units + Stride(k0, l, s) == unitsSelected + Stride(k, l, s)
      decreases l - k
    {
      unitsSelected := unitsSelected + [k];
      k := k + s;
    }
  }
}
