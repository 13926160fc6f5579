/**
 * The chart view: one row per trade labelled "Day N", and the tooltip that
 * recovers the trade from a row's label to show its profit target.
 */
module ProgressChart {
  import opened Wrappers
  import opened Trades

  datatype ChartRow = ChartRow(name: string, equity: real, achieved: bool)

  predicate IsDigit(c: char)
  {
    '0' <= c <= '9'
  }

  predicate AllDigits(s: string)
  {
    forall i :: 0 <= i < |s| ==> IsDigit(s[i])
  }

  function DigitChar(d: nat): char
    requires d < 10
  {
    ['0', '1', '2', '3', '4', '5', '6', '7', '8', '9'][d]
  }

  function DigitValue(c: char): nat
    requires IsDigit(c)
  {
    (c as int - '0' as int) as nat
  }

  /** The value of a string of decimal digits. */
  function DigitsValue(s: string): nat
    requires AllDigits(s)
  {
    if s == [] then 0 else DigitsValue(s[..|s| - 1]) * 10 + DigitValue(s[|s| - 1])
  }

  /** The decimal form of `n`, as a template literal writes a whole number:
      digits only, no leading zero except for 0 itself, and reading it back
      gives `n`. */
  function NatToString(n: nat): (r: string)
    ensures |r| > 0 && AllDigits(r)
    ensures r[0] == '0' ==> n == 0
    ensures |r| > 1 ==> r[0] != '0'
    ensures DigitsValue(r) == n
  {
    var last := [DigitChar(n % 10)];
    if n < 10 then last else NatToString(n / 10) + last
  }

  /** The label of chart row `i`: "Day ", then the decimal form of `i + 1`,
      which holds no space. */
  function DayLabel(i: nat): (r: string)
    ensures |r| > 4 && r[..4] == "Day "
    ensures AllDigits(r[4..]) && DigitsValue(r[4..]) == i + 1
  {
    "Day " + NatToString(i + 1)
  }

  /** One row per trade, carrying its label, balance and completion flag. */
  function ChartData(ts: seq<Trade>): (r: seq<ChartRow>)
    ensures |r| == |ts|
    ensures forall i :: 0 <= i < |ts| ==>
      r[i].name == DayLabel(i) && r[i].equity == ts[i].equity && r[i].achieved == ts[i].achieved
  {
    seq(|ts|, i requires 0 <= i < |ts| => ChartRow(DayLabel(i), ts[i].equity, ts[i].achieved))
  }

  /** `String.prototype.split` on a single character: the pieces between the
      separators, empty ones included; there is always at least one, and no
      piece holds the separator. */
  function Split(s: string, sep: char): (r: seq<string>)
    ensures |r| >= 1
    ensures forall k :: 0 <= k < |r| ==> sep !in r[k]
  {
    if s == [] then [[]]
    else
      var rest := Split(s[1..], sep);
      if s[0] == sep then [[]] + rest else [[s[0]] + rest[0]] + rest[1..]
  }

  /** The white space `parseInt` skips before the number (the ASCII part of it). */
  predicate IsSpace(c: char)
  {
    c == ' ' || c == '\t' || c == '\n' || c == '\r' || c == '\U{000C}' || c == '\U{000B}'
  }

  /** `s` without its leading white space: a suffix of `s` that does not
      start with white space, after only white space was dropped. */
  function TrimStart(s: string): (r: string)
    ensures |r| <= |s| && r == s[|s| - |r|..]
    ensures r == [] || !IsSpace(r[0])
    ensures forall i :: 0 <= i < |s| - |r| ==> IsSpace(s[i])
  {
    if s != [] && IsSpace(s[0]) then TrimStart(s[1..]) else s
  }

  /** The longest run of digits `s` starts with. */
  function LeadingDigits(s: string): (r: string)
    ensures AllDigits(r) && |r| <= |s| && r == s[..|r|]
    ensures |r| < |s| ==> !IsDigit(s[|r|])
  {
    if s != [] && IsDigit(s[0]) then [s[0]] + LeadingDigits(s[1..]) else []
  }

  /** `parseInt` in base ten: skip leading white space, read an optional sign
      and then as many digits as there are; with no digit the result is
      `NaN`, here `None`. */
  function ParseInt(s: string): (r: Option<int>)
    ensures s != [] && AllDigits(s) ==> r == Some(DigitsValue(s))
    ensures (forall i :: 0 <= i < |s| ==> !IsDigit(s[i])) ==> r == None
  {
    assert s != [] && AllDigits(s) ==> IsDigit(s[0]) && TrimStart(s) == s && LeadingDigits(s) == s;
    var t := TrimStart(s);
    var negative := t != [] && t[0] == '-';
    var body := if t != [] && (t[0] == '-' || t[0] == '+') then t[1..] else t;
    var digits := LeadingDigits(body);
    var magnitude: int := if digits == [] then 0 else DigitsValue(digits);
    if digits == [] then None
    else if negative then Some(-magnitude)
    else Some(magnitude)
  }

  /** The tooltip's index: the second space-separated word of the label, read
      as a number, minus one. A label with no second word reads `undefined`,
      and `parseInt` of it is `NaN`. */
  function TooltipIndex(rowName: string): (r: Option<int>)
    ensures ' ' !in rowName ==> r == None
  {
    var parts := Split(rowName, ' ');
    if |parts| < 2 then None
    else
      SplitJoin(rowName, ' ');
      assert rowName[|parts[0]|] == ' ';
      match ParseInt(parts[1])
      case None => None
      case Some(n) => Some(n - 1)
  }

  /** The profit target the tooltip shows for a label, or `None` where the
      source would read a field of `undefined`. */
  function TooltipTarget(ts: seq<Trade>, rowName: string): (r: Option<real>)
    ensures r.Some? <==> TooltipIndex(rowName).Some? && 0 <= TooltipIndex(rowName).value < |ts|
    ensures r.Some? ==> r.value == ts[TooltipIndex(rowName).value].profitTarget
    ensures ' ' !in rowName ==> r == None
  {
    match TooltipIndex(rowName)
    case Some(i) => if 0 <= i < |ts| then Some(ts[i].profitTarget) else None
    case None => None
  }

  /** `Array.prototype.join`: the pieces with the separator between them. */
  function Join(pieces: seq<string>, sep: char): string
    requires |pieces| >= 1
  {
    if |pieces| == 1 then pieces[0] else pieces[0] + [sep] + Join(pieces[1..], sep)
  }

  /** Joining the pieces of a split with the same separator gives back the string. */
  lemma {:induction false} SplitJoin(s: string, sep: char)
    ensures Join(Split(s, sep), sep) == s
  {
    if s != [] {
      var rest := Split(s[1..], sep);
      SplitJoin(s[1..], sep);
      var r := Split(s, sep);
      if s[0] == sep {
        assert r[1..] == rest;
      } else {
        assert r[1..] == rest[1..];
        if |rest| > 1 {
          assert Join(rest, sep) == rest[0] + [sep] + Join(rest[1..], sep);
        }
      }
      assert [s[0]] + s[1..] == s;
    }
  }

  /** A string without the separator splits into itself. */
  lemma {:induction false} SplitWithoutSeparator(s: string, sep: char)
    requires sep !in s
    ensures Split(s, sep) == [s]
  {
    if s != [] {
      SplitWithoutSeparator(s[1..], sep);
      assert s[0] != sep;
      assert [s[0]] + s[1..] == s;
    }
  }

  /** A run of digits is its own leading run. */
  lemma {:induction false} LeadingDigitsOfDigits(s: string)
    requires AllDigits(s)
    ensures LeadingDigits(s) == s
  {
    if s != [] {
      LeadingDigitsOfDigits(s[1..]);
    }
  }

  /** `parseInt` reads back the decimal form of a whole number. */
  lemma ParseIntOfNat(n: nat)
    ensures ParseInt(NatToString(n)) == Some(n)
  {
    var s := NatToString(n);
    assert !IsSpace(s[0]) && s[0] != '-' && s[0] != '+';
    LeadingDigitsOfDigits(s);
  }

  /** The label of row `i` splits into "Day" and the decimal form of `i + 1`. */
  lemma SplitDayLabel(i: nat)
    ensures Split(DayLabel(i), ' ') == ["Day", NatToString(i + 1)]
  {
    var digits := NatToString(i + 1);
    assert ' ' !in digits;
    SplitWithoutSeparator(digits, ' ');
    var tail := " " + digits;
    assert tail[1..] == digits;
    assert Split(tail, ' ') == [[], digits];
    SplitCons('y', tail, ' ');
    assert Split(tail, ' ')[0] == [] && Split(tail, ' ')[1..] == [digits];
    assert Split(['y'] + tail, ' ') == [['y'] + []] + [digits];
    assert ['y'] + [] == "y";
    assert Split(['y'] + tail, ' ') == ["y", digits];
    SplitCons('a', ['y'] + tail, ' ');
    assert ['a'] + "y" == "ay";
    assert ['a'] + (['y'] + tail) == ['a', 'y'] + tail;
    assert Split(['a', 'y'] + tail, ' ') == ["ay", digits];
    assert ['D'] + "ay" == "Day";
    SplitCons('D', ['a', 'y'] + tail, ' ');
    assert ['D'] + (['a', 'y'] + tail) == DayLabel(i);
  }

  /** A character other than the separator joins the first piece. */
  lemma SplitCons(c: char, s: string, sep: char)
    requires c != sep
    ensures Split([c] + s, sep) == [[c] + Split(s, sep)[0]] + Split(s, sep)[1..]
  {
  }

  /** The tooltip recovers the row's index from the label of every row, that
      index lies inside the list, and the target shown is that trade's. */
  lemma TooltipRoundTrip(ts: seq<Trade>, i: nat)
    requires i < |ts|
    ensures TooltipIndex(ChartData(ts)[i].name) == Some(i)
    ensures TooltipTarget(ts, ChartData(ts)[i].name) == Some(ts[i].profitTarget)
  {
    SplitDayLabel(i);
    ParseIntOfNat(i + 1);
  }
}
