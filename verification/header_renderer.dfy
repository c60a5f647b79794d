/** The header of a page (index.js `createHeader` and the label built in
    `merge`): the text shown above the grid and the font size chosen for it.
    Only the numbers are modelled; the drawing itself is not. The width of
    rendered text is the canvas's `measureText`, passed in as `measure`. */
module HeaderRenderer {
  import opened Wrappers

  /** The text, set at `size`, stays within 80% of the header's width. */
  predicate Fits(measure: (string, real) -> real, text: string, boxWidth: real, size: real) {
    measure(text, size) <= 0.8 * boxWidth
  }

  /** The font size after `j` shrinking steps of 2 from `start`. */
  function Step(start: real, j: nat): real {
    start - 2.0 * j as real
  }

  /** The size `createHeader` starts from: 70% of the header's height. */
  function StartSize(boxHeight: real): real {
    0.7 * boxHeight
  }

  /** The chosen font size and how many times it was reduced. */
  datatype FontFit = FontFit(size: real, steps: nat)

  /** The shrink loop from its `steps`-th iteration on: measure at the
      current size; if too wide, subtract 2 and stop once the size is at
      most 4, otherwise measure again. */
  function ShrinkFrom(measure: (string, real) -> real, text: string, boxWidth: real, start: real, steps: nat): (r: FontFit)
    requires forall j: nat :: j < steps ==> !Fits(measure, text, boxWidth, Step(start, j))
    requires forall j: nat :: 0 < j <= steps ==> Step(start, j) > 4.0
    ensures r.steps >= steps
    ensures r.size == Step(start, r.steps)
    ensures forall j: nat :: j < r.steps ==> !Fits(measure, text, boxWidth, Step(start, j))
    ensures forall j: nat :: 0 < j < r.steps ==> Step(start, j) > 4.0
    ensures Fits(measure, text, boxWidth, r.size) || r.size <= 4.0
    ensures r.steps == steps <==> Fits(measure, text, boxWidth, Step(start, steps))
    decreases Step(start, steps).Floor
  {
    var size := Step(start, steps);
    if Fits(measure, text, boxWidth, size) then FontFit(size, steps)
    else if Step(start, steps + 1) <= 4.0 then FontFit(Step(start, steps + 1), steps + 1)
    else ShrinkFrom(measure, text, boxWidth, start, steps + 1)
  }

  /** The font size `createHeader` settles on for a `boxWidth` x `boxHeight`
      header: `0.7 * boxHeight` if the text fits there, otherwise reduced in
      steps of 2 until it fits or has dropped to 4 or below. */
  function FitFontSize(measure: (string, real) -> real, text: string, boxWidth: real, boxHeight: real): (r: FontFit)
    ensures r.size == Step(StartSize(boxHeight), r.steps)
    ensures r.steps == 0 <==> Fits(measure, text, boxWidth, StartSize(boxHeight))
    ensures forall j: nat :: j < r.steps ==> !Fits(measure, text, boxWidth, Step(StartSize(boxHeight), j))
    ensures forall j: nat :: 0 < j < r.steps ==> Step(StartSize(boxHeight), j) > 4.0
    ensures Fits(measure, text, boxWidth, r.size) || r.size <= 4.0
  {
    ShrinkFrom(measure, text, boxWidth, StartSize(boxHeight), 0)
  }

  /** The floor of 4 is checked only after a reduction, so the size can end
      up to 2 below it, and a starting size of 4 or less is still reduced
      once when the text does not fit at the start size: the result is above
      2 or within one step of the start. */
  lemma FitFontSizeLowerBound(measure: (string, real) -> real, text: string, boxWidth: real, boxHeight: real)
    ensures var r := FitFontSize(measure, text, boxWidth, boxHeight);
      r.size > 2.0 || r.size >= StartSize(boxHeight) - 2.0
  {
    var r := FitFontSize(measure, text, boxWidth, boxHeight);
    if r.steps >= 2 {
      assert Step(StartSize(boxHeight), r.steps - 1) > 4.0;
    }
  }

  /** Text that never fits, in a header whose starting size is 5, ends at 3. */
  lemma FloorCanBeUndershot(text: string)
    ensures FitFontSize((t: string, s: real) => 1000.0, text, 100.0, 50.0 / 7.0) == FontFit(3.0, 1)
  {
    var measure := (t: string, s: real) => 1000.0;
    var r := FitFontSize(measure, text, 100.0, 50.0 / 7.0);
    assert !Fits(measure, text, 100.0, Step(5.0, 0));
    assert r.steps >= 1;
  }

  // ---------------------------------------------------------------------
  // The page label: the header text, followed by " [page/total]" when a
  // merge produces more than one page.

  predicate IsDigit(c: char) {
    '0' <= c <= '9'
  }

  predicate AllDigits(s: string) {
    forall i :: 0 <= i < |s| ==> IsDigit(s[i])
  }

  function DigitChar(d: nat): (c: char)
    requires d < 10
    ensures IsDigit(c) && c as int - '0' as int == d
  {
    ['0', '1', '2', '3', '4', '5', '6', '7', '8', '9'][d]
  }

  /** Decimal notation of `n`, as JavaScript prints an integer: a
      non-empty run of digits with no leading zero. */
  function NatToString(n: nat): (s: string)
    ensures |s| >= 1 && AllDigits(s)
    ensures s[0] == '0' <==> n == 0
    decreases n
  {
    if n < 10 then [DigitChar(n)] else NatToString(n / 10) + [DigitChar(n % 10)]
  }

  /** The number a string of decimal digits denotes. */
  function DigitsValue(s: string): nat
    requires AllDigits(s)
  {
    if |s| == 0 then 0
    else DigitsValue(s[..|s| - 1]) * 10 + (s[|s| - 1] as int - '0' as int)
  }

  /** Printing a number and reading it back gives the number, and the
      printed form is a non-empty run of digits without a leading zero. */
  lemma {:induction false} NatToStringRoundTrip(n: nat)
    ensures |NatToString(n)| >= 1
    ensures AllDigits(NatToString(n))
    ensures n >= 10 ==> NatToString(n)[0] != '0'
    ensures DigitsValue(NatToString(n)) == n
    decreases n
  {
    if n >= 10 {
      NatToStringRoundTrip(n / 10);
      var s := NatToString(n);
      assert s[..|s| - 1] == NatToString(n / 10);
    }
  }

  /** The other direction: a digit string without a leading zero (other
      than "0" itself) is the printed form of the number it denotes, so a
      printed number is the only digit string without a leading zero that
      reads back as it. */
  lemma {:induction false} DigitsValueRoundTrip(s: string)
    requires |s| >= 1 && AllDigits(s) && (s[0] == '0' ==> |s| == 1)
    ensures NatToString(DigitsValue(s)) == s
    decreases |s|
  {
    var d := s[|s| - 1] as int - '0' as int;
    if |s| == 1 {
      assert DigitsValue(s) == d;
      assert DigitChar(d) == s[0];
    } else {
      var p := s[..|s| - 1];
      assert p[0] == s[0];
      DigitsValueRoundTrip(p);
      var v := DigitsValue(p);
      assert v != 0;
      assert DigitsValue(s) == v * 10 + d;
      assert DigitsValue(s) / 10 == v && DigitsValue(s) % 10 == d;
      assert DigitChar(d) == s[|s| - 1];
      assert s == p + [s[|s| - 1]];
    }
  }

  /** The header text of page `index` (counted from 0) of `total` pages. */
  function HeaderText(header: string, index: nat, total: nat): (t: string)
    ensures |t| >= |header| && t[..|header|] == header
    ensures total > 1 <==> |t| > |header|
  {
    if total > 1 then header + " [" + NatToString(index + 1) + "/" + NatToString(total) + "]"
    else header
  }

  /** Splits `s` into what precedes its trailing digits and those digits. */
  function SplitDigits(s: string): (p: (string, string))
    ensures p.0 + p.1 == s
    ensures AllDigits(p.1)
    ensures |p.0| == 0 || !IsDigit(p.0[|p.0| - 1])
    decreases |s|
  {
    if |s| == 0 || !IsDigit(s[|s| - 1]) then (s, [])
    else
      var p := SplitDigits(s[..|s| - 1]);
      assert p.0 + (p.1 + [s[|s| - 1]]) == s;
      (p.0, p.1 + [s[|s| - 1]])
  }

  /** Digits appended to text that does not end in a digit split off again. */
  lemma {:induction false} SplitDigitsOfAppend(x: string, d: string)
    requires AllDigits(d)
    requires |x| == 0 || !IsDigit(x[|x| - 1])
    ensures SplitDigits(x + d) == (x, d)
    decreases |d|
  {
    if |d| > 0 {
      assert (x + d)[..|x + d| - 1] == x + d[..|d| - 1];
      SplitDigitsOfAppend(x, d[..|d| - 1]);
      assert d[..|d| - 1] + [d[|d| - 1]] == d;
    } else {
      assert x + d == x;
    }
  }

  /** Reads a page label back into header, page number and page count. The
      numbers are the longest digit runs before `/` and before `]`. */
  function ParseHeaderText(s: string): Option<(string, nat, nat)> {
    if |s| == 0 || s[|s| - 1] != ']' then None
    else
      var (rest, total) := SplitDigits(s[..|s| - 1]);
      if |total| == 0 || |rest| == 0 || rest[|rest| - 1] != '/' then None
      else
        var (head, page) := SplitDigits(rest[..|rest| - 1]);
        if |page| == 0 || |head| < 2 || head[|head| - 2..] != " [" then None
        else Some((head[..|head| - 2], DigitsValue(page), DigitsValue(total)))
  }

  /** A label built from any two non-empty digit strings reads back as the
      header and the numbers those strings denote. */
  lemma ParseLabel(header: string, a: string, b: string)
    requires |a| >= 1 && AllDigits(a) && |b| >= 1 && AllDigits(b)
    ensures ParseHeaderText(header + " [" + a + "/" + b + "]") == Some((header, DigitsValue(a), DigitsValue(b)))
  {
    var s := header + " [" + a + "/" + b + "]";
    assert s[..|s| - 1] == (header + " [" + a + "/") + b;
    SplitDigitsOfAppend(header + " [" + a + "/", b);
    var rest := header + " [" + a + "/";
    assert rest[..|rest| - 1] == (header + " [") + a;
    SplitDigitsOfAppend(header + " [", a);
    var head := header + " [";
    assert head[|head| - 2..] == " [";
    assert head[..|head| - 2] == header;
  }

  /** A multi-page label reads back as the header, the 1-based page number
      and the page count; a single page is labelled with the bare header. */
  lemma HeaderTextRoundTrip(header: string, index: nat, total: nat)
    ensures total > 1 ==> ParseHeaderText(HeaderText(header, index, total)) == Some((header, index + 1, total))
    ensures total <= 1 ==> HeaderText(header, index, total) == header
  {
    if total > 1 {
      NatToStringRoundTrip(index + 1);
      NatToStringRoundTrip(total);
      ParseLabel(header, NatToString(index + 1), NatToString(total));
    }
  }
}
