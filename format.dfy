/** The page's number formatter: a sign for the kind, the whole part with a
    comma before every group of three digits counted from the right, a point
    and two fraction digits ("+ 1,200.00"). Amounts are whole cents, so the
    text `toFixed(2)` produces is built exactly from them. */
module Format {
  import opened Decimal
  import opened Ledger

  function Abs(x: int): nat {
    if x < 0 then -x else x
  }

  /** "+" for an income, "-" for anything else. */
  function Sign(kind: Kind): string {
    if kind == Inc then "+" else "-"
  }

  /** The part of `toFixed(2)`'s text before the point. JavaScript writes a
      minus sign in front of a negative amount, and it stays in this part. */
  function IntegerText(cents: int): string {
    (if cents < 0 then "-" else "") + Digits(Abs(cents) / 100)
  }

  /** The part of `toFixed(2)`'s text after the point. */
  function FractionText(cents: int): string {
    TwoDigits(Abs(cents) % 100)
  }

  /** The whole part with a comma inserted before each group of three
      characters, counted from the right. */
  function Grouped(s: string): string
    decreases |s|
  {
    if |s| > 3 then Grouped(s[..|s| - 3]) + "," + s[|s| - 3..] else s
  }

  /** formatNumber as written: every character of the whole part is grouped,
      the sign included. */
  function FormattedAsWritten(cents: int, kind: Kind): string {
    Sign(kind) + " " + Grouped(IntegerText(cents)) + "." + FractionText(cents)
  }

  /** formatNumber: the grouping loop walks the whole part from the right,
      prepending a comma and three characters while more than three remain,
      then prepends what is left. */
  method FormatNumber(cents: int, kind: Kind) returns (text: string)
    ensures text == FormattedAsWritten(cents, kind)
  {
    var sign := Sign(kind);
    var whole := IntegerText(cents);
    var fraction := FractionText(cents);
    var numString := "";
    var i := |whole|;
    assert whole[..i] == whole;
    while i > 3
      invariant 0 <= i <= |whole|
      invariant Grouped(whole[..i]) + numString == Grouped(whole)
    {
      assert whole[..i][..i - 3] == whole[..i - 3];
      assert whole[..i][i - 3..] == whole[i - 3..i];
      numString := "," + whole[i - 3..i] + numString;
      i := i - 3;
    }
    numString := whole[..i] + numString;
    text := sign + " " + numString + "." + fraction;
  }

  /** formatNumber as evidently intended: the sign comes from the kind alone
      and only the digits of the amount are grouped. */
  function FormatAmount(cents: int, kind: Kind): string {
    Sign(kind) + " " + Grouped(Digits(Abs(cents) / 100)) + "." + FractionText(cents)
  }

  /** On the amounts the page formats other than a negative budget (income
      and expense totals and item amounts) the code as written and the
      intended formatter agree. */
  lemma AsWrittenAgreesOnNonNegative(cents: int, kind: Kind)
    requires cents >= 0
    ensures FormattedAsWritten(cents, kind) == FormatAmount(cents, kind)
  {
    assert IntegerText(cents) == Digits(Abs(cents) / 100);
  }

  /** A budget of -120.00 is shown with its kind's "-" and then JavaScript's
      own "-", and a comma separates that minus from the digits. */
  lemma NegativeBudgetShownTwice()
    ensures FormattedAsWritten(-12000, Exp) == "- -,120.00"
    ensures FormatAmount(-12000, Exp) == "- 120.00"
  {
    var digits := Digits(120);
    assert digits == "120" by {
      assert Digits(12) == Digits(1) + [DigitChar(2)];
      assert Digits(1) == "1" && DigitChar(2) == '2' && DigitChar(0) == '0';
    }
    var fraction := FractionText(-12000);
    assert fraction == "00" by {
      assert DigitChar(0) == '0';
    }
    var w := IntegerText(-12000);
    assert w == "-" + digits;
    assert Grouped(w) == "-,120" by {
      assert w[..|w| - 3] == "-" && w[|w| - 3..] == digits;
    }
    assert Grouped(digits) == "120";
  }

  // ---------------------------------------------------------------------
  // What a formatted amount says

  function StripCommas(s: string): string
    decreases |s|
  {
    if s == [] then [] else (if s[0] == ',' then [] else [s[0]]) + StripCommas(s[1..])
  }

  lemma {:induction false} StripCommasConcat(a: string, b: string)
    ensures StripCommas(a + b) == StripCommas(a) + StripCommas(b)
    decreases |a|
  {
    if a == [] {
      assert a + b == b;
    } else {
      var head := if a[0] == ',' then [] else [a[0]];
      assert (a + b)[0] == a[0];
      assert (a + b)[1..] == a[1..] + b;
      StripCommasConcat(a[1..], b);
      calc {
        StripCommas(a + b);
        head + StripCommas(a[1..] + b);
        head + (StripCommas(a[1..]) + StripCommas(b));
        (head + StripCommas(a[1..])) + StripCommas(b);
        StripCommas(a) + StripCommas(b);
      }
    }
  }

  lemma {:induction false} StripCommasNone(s: string)
    requires forall i :: 0 <= i < |s| ==> s[i] != ','
    ensures StripCommas(s) == s
    decreases |s|
  {
    if s != [] {
      StripCommasNone(s[1..]);
    }
  }

  /** Taking the commas out of the grouped text gives the digits back. */
  lemma {:induction false} GroupedStripsBack(s: string)
    requires forall i :: 0 <= i < |s| ==> s[i] != ','
    ensures StripCommas(Grouped(s)) == s
    decreases |s|
  {
    if |s| > 3 {
      var p, q := s[..|s| - 3], s[|s| - 3..];
      var g := Grouped(p);
      assert Grouped(s) == (g + ",") + q;
      assert StripCommas(g + ",") == p by {
        GroupedStripsBack(p);
        StripCommasConcat(g, ",");
        assert StripCommas(",") == [] by {
          assert ","[1..] == [];
        }
        assert p + [] == p;
      }
      assert StripCommas(q) == q by {
        StripCommasNone(q);
      }
      StripCommasConcat(g + ",", q);
      assert p + q == s;
    } else {
      StripCommasNone(s);
    }
  }

  /** Commas sit exactly at the positions that end a group of three from the
      right: a position holds a comma iff it is not the first and the number
      of characters from it to the end is a multiple of four. With `n`
      characters there are (n - 1) / 3 commas. */
  lemma {:induction false} GroupedCommas(s: string)
    requires |s| >= 1 && forall i :: 0 <= i < |s| ==> s[i] != ','
    ensures var r := Grouped(s);
      |r| == |s| + (|s| - 1) / 3 &&
      forall k :: 0 <= k < |r| ==> (r[k] == ',' <==> k > 0 && (|r| - k) % 4 == 0)
    decreases |s|
  {
    var r := Grouped(s);
    if |s| > 3 {
      var p, q := s[..|s| - 3], s[|s| - 3..];
      GroupedCommas(p);
      var g := Grouped(p);
      assert r == g + "," + q;
      forall k | 0 <= k < |r| ensures r[k] == ',' <==> k > 0 && (|r| - k) % 4 == 0 {
        if k < |g| {
          assert r[k] == g[k];
          assert (|r| - k) % 4 == (|g| - k) % 4 by {
            assert |r| - k == (|g| - k) + 4;
          }
        } else if k > |g| {
          assert r[k] == q[k - |g| - 1] == s[|s| - 3 + (k - |g| - 1)];
        }
      }
    }
  }

  /** The intended formatter's text is the kind's sign and a space, then
      the grouped whole part, then a point and two digits. */
  lemma FormatAmountParts(cents: int, kind: Kind)
    ensures var t := FormatAmount(cents, kind);
      |t| >= 6 && t[..2] == Sign(kind) + " " && t[|t| - 3] == '.' &&
      t[2..|t| - 3] == Grouped(Digits(Abs(cents) / 100)) && t[|t| - 2..] == FractionText(cents)
  {
    var g := Grouped(Digits(Abs(cents) / 100));
    assert |g| >= 1;
    JoinedParts(Sign(kind) + " ", g, '.', FractionText(cents));
  }

  /** Where each part of a text laid out as head, body, point, two-character
      tail can be found again. */
  lemma JoinedParts<T>(head: seq<T>, body: seq<T>, point: T, tail: seq<T>)
    requires |head| == 2 && |tail| == 2
    ensures var t := head + body + [point] + tail;
      |t| == |body| + 5 && t[..2] == head && t[2..|t| - 3] == body &&
      t[|t| - 3] == point && t[|t| - 2..] == tail
  {
    var t := head + body + [point] + tail;
    assert t[..2] == head;
    assert t[2..|t| - 3] == body;
    assert t[|t| - 2..] == tail;
  }

  /** Without its commas the whole part of the intended text reads back as
      the whole cents divided by 100, and the two last digits as the
      remainder: the text determines the amount's size. */
  lemma FormatAmountReadsBack(cents: int, kind: Kind)
    ensures var t := FormatAmount(cents, kind);
      |t| >= 6 && AllDigits(t[|t| - 2..]) && AllDigits(StripCommas(t[2..|t| - 3])) &&
      100 * Value(StripCommas(t[2..|t| - 3])) + Value(t[|t| - 2..]) == Abs(cents)
  {
    var d := Digits(Abs(cents) / 100);
    FormatAmountParts(cents, kind);
    GroupedStripsBack(d);
    ValueOfDigits(Abs(cents) / 100);
  }

  /** In the intended text, the whole part has a comma exactly before each
      group of three digits counted from the right. */
  lemma FormatAmountGroups(cents: int, kind: Kind)
    ensures var t := FormatAmount(cents, kind);
      |t| >= 6 && var b := t[2..|t| - 3];
      forall k :: 0 <= k < |b| ==> (b[k] == ',' <==> k > 0 && (|b| - k) % 4 == 0)
  {
    FormatAmountParts(cents, kind);
    GroupedCommas(Digits(Abs(cents) / 100));
  }
}
