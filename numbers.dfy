/** Decimal text of counts: Python's `str(n)` and `int(s)` on digit strings,
    and the script's `format_number`, which puts a dot between every group
    of three digits counted from the right. */
module Numbers {
  import opened Strings

  function DigitChar(d: nat): (c: char)
    requires d < 10
    ensures IsDigit(c)
  {
    (d + '0' as int) as char
  }

  function DigitValue(c: char): (d: nat)
    requires IsDigit(c)
    ensures d < 10 && DigitChar(d) == c
  {
    c as int - '0' as int
  }

  /** The number a string of decimal digits denotes. */
  function DigitsValue(s: string): nat
    requires AllDigits(s)
  {
    if s == [] then 0 else 10 * DigitsValue(s[..|s| - 1]) + DigitValue(s[|s| - 1])
  }

  /** `str(n)` for a non-negative `n`: its shortest decimal form. */
  function NatToString(n: nat): (s: string)
    ensures |s| >= 1 && AllDigits(s)
    ensures DigitsValue(s) == n
    ensures |s| > 1 ==> s[0] != '0'
  {
    if n < 10 then [DigitChar(n)]
    else
      var front := NatToString(n / 10);
      assert (front + [DigitChar(n % 10)])[..|front|] == front;
      front + [DigitChar(n % 10)]
  }

  /** `str(n)` */
  function IntToString(n: int): string {
    if n < 0 then "-" + NatToString(-n) else NatToString(n)
  }

  /** `int(s)` for the count fields of a numstat line, modelled on ASCII
      digit strings only: None stands for the ValueError Python raises. */
  function ParseCount(s: string): (r: Option<nat>)
    ensures r.Some? <==> |s| > 0 && AllDigits(s)
  {
    if |s| > 0 && AllDigits(s) then Some(DigitsValue(s)) else None
  }

  /** `int(str(n)) == n` */
  lemma ParseCountNatToString(n: nat)
    ensures ParseCount(NatToString(n)) == Some(n)
  {
  }

  /** Decimal forms are canonical: a digit string without a leading zero is
      `str` of the number it denotes, so `str` and `int` are inverses. */
  lemma {:induction false} NatToStringDigitsValue(s: string)
    requires |s| >= 1 && AllDigits(s)
    requires |s| > 1 ==> s[0] != '0'
    ensures NatToString(DigitsValue(s)) == s
    decreases |s|
  {
    var n := DigitsValue(s);
    if |s| == 1 {
      assert s[..0] == [];
      assert DigitsValue(s) == 10 * DigitsValue(s[..0]) + DigitValue(s[0]);
      assert n == DigitValue(s[0]);
    } else {
      var front := s[..|s| - 1];
      assert front[0] == s[0];
      NatToStringDigitsValue(front);
      assert n / 10 == DigitsValue(front) && n % 10 == DigitValue(s[|s| - 1]);
      assert s == front + [s[|s| - 1]];
    }
  }

  /** `str(n)` has at most three digits exactly when `n < 1000`. */
  lemma NatToStringShort(n: nat)
    ensures |NatToString(n)| <= 3 <==> n < 1000
  {
    if n >= 10 {
      NatToStringShort(n / 10);
      if n / 10 >= 10 {
        NatToStringShort(n / 100);
      }
    }
  }

  /** The grouping `format_number` produces: a dot before each block of
      three characters counted from the right, except at the very front. */
  function GroupThousands(s: string): string
    decreases |s|
  {
    if |s| <= 3 then s
    else GroupThousands(s[..|s| - 3]) + "." + s[|s| - 3..]
  }

  /** No character of `s` is a dot. */
  predicate NoDots(s: string) {
    forall k :: 0 <= k < |s| ==> s[k] != '.'
  }

  /** `s` with every `.` taken out. */
  function RemoveDots(s: string): (r: string)
    ensures NoDots(r)
  {
    if s == [] then []
    else RemoveDots(s[..|s| - 1]) + (if s[|s| - 1] == '.' then [] else [s[|s| - 1]])
  }

  lemma {:induction false} RemoveDotsAppend(a: string, b: string)
    ensures RemoveDots(a + b) == RemoveDots(a) + RemoveDots(b)
    decreases |b|
  {
    if b != [] {
      assert (a + b)[..|a + b| - 1] == a + b[..|b| - 1];
      RemoveDotsAppend(a, b[..|b| - 1]);
    } else {
      assert a + b == a;
    }
  }

  lemma {:induction false} RemoveDotsNone(s: string)
    requires NoDots(s)
    ensures RemoveDots(s) == s
    decreases |s|
  {
    if s != [] {
      RemoveDotsNone(s[..|s| - 1]);
      assert s == s[..|s| - 1] + [s[|s| - 1]];
    }
  }

  /** Dots sit exactly at the positions whose distance from the end is
      3, 7, 11, ...: every group after the first has three characters and
      the first has one to three. */
  ghost predicate DotsEveryThree(r: string) {
    forall k :: 0 <= k < |r| ==> (r[k] == '.' <==> (|r| - 1 - k) % 4 == 3)
  }

  /** A trailing dot disappears. */
  lemma RemoveDotsDot(g: string)
    ensures RemoveDots(g + ".") == RemoveDots(g)
  {
    var s := g + ".";
    assert s[..|s| - 1] == g && s[|s| - 1] == '.';
  }

  /** Taking the dots out of a dot and a dot-free group appended. */
  lemma RemoveDotsGroup(g: string, back: string)
    requires NoDots(back)
    ensures RemoveDots(g + "." + back) == RemoveDots(g) + back
  {
    RemoveDotsAppend(g + ".", back);
    RemoveDotsDot(g);
    RemoveDotsNone(back);
  }

  /** Taking the dots out of a grouped string gives the digits back. */
  lemma {:induction false} GroupThousandsRemoveDots(s: string)
    requires NoDots(s)
    ensures RemoveDots(GroupThousands(s)) == s
    decreases |s|
  {
    if |s| <= 3 {
      RemoveDotsNone(s);
    } else {
      var front, back := s[..|s| - 3], s[|s| - 3..];
      assert forall k :: 0 <= k < |front| ==> front[k] == s[k];
      assert forall k :: 0 <= k < |back| ==> back[k] == s[|s| - 3 + k];
      GroupThousandsRemoveDots(front);
      RemoveDotsGroup(GroupThousands(front), back);
      assert s == front + back;
    }
  }

  /** A string of at most three characters without dots has the dot
      pattern trivially. */
  lemma DotsEveryThreeShort(s: string)
    requires |s| <= 3 && NoDots(s)
    ensures DotsEveryThree(s)
  {
    forall k | 0 <= k < |s|
      ensures s[k] == '.' <==> (|s| - 1 - k) % 4 == 3
    {
    }
  }

  /** Appending a dot and a dot-free group of three keeps the pattern. */
  lemma DotsEveryThreeAppend(g: string, back: string)
    requires DotsEveryThree(g) && |back| == 3 && NoDots(back)
    ensures DotsEveryThree(g + "." + back)
  {
    var r := g + "." + back;
    forall k | 0 <= k < |r|
      ensures r[k] == '.' <==> (|r| - 1 - k) % 4 == 3
    {
      if k < |g| {
        assert r[k] == g[k];
        assert |r| - 1 - k == (|g| - 1 - k) + 4;
      } else if k > |g| {
        assert r[k] == back[k - |g| - 1];
      }
    }
  }

  /** The dot pattern of a grouped string, and its length. */
  lemma {:induction false} GroupThousandsShape(s: string)
    requires |s| >= 1 && NoDots(s)
    ensures |GroupThousands(s)| == |s| + (|s| - 1) / 3
    ensures DotsEveryThree(GroupThousands(s))
    decreases |s|
  {
    if |s| <= 3 {
      DotsEveryThreeShort(s);
    } else {
      var front, back := s[..|s| - 3], s[|s| - 3..];
      assert forall k :: 0 <= k < |front| ==> front[k] == s[k];
      assert forall k :: 0 <= k < |back| ==> back[k] == s[|s| - 3 + k];
      GroupThousandsShape(front);
      DotsEveryThreeAppend(GroupThousands(front), back);
    }
  }

  /** A grouped digit string neither starts nor ends with a dot. */
  lemma GroupThousandsNoEdgeDots(s: string)
    requires |s| >= 1 && NoDots(s)
    ensures var r := GroupThousands(s); |r| >= 1 && r[0] != '.' && r[|r| - 1] != '.'
  {
    GroupThousandsShape(s);
    var r := GroupThousands(s);
    assert (|r| - 1) % 4 != 3;
  }

  lemma AppendAssoc(a: string, b: string, c: string)
    ensures (a + b) + c == a + (b + c)
  {
  }

  /** Putting one more digit in front of a string that holds a positive
      multiple of three characters grows its grouping by the digit and a
      dot. This is the step of the loop in FormatNumber that emits a dot. */
  lemma {:induction false} GroupThousandsConsDot(c: char, x: string)
    requires |x| > 0 && |x| % 3 == 0
    ensures GroupThousands([c] + x) == [c] + (['.'] + GroupThousands(x))
    decreases |x|
  {
    var s := [c] + x;
    if |x| == 3 {
      assert s[..|s| - 3] == [c] && s[|s| - 3..] == x;
      AppendAssoc([c], ".", x);
    } else {
      var front, back := x[..|x| - 3], x[|x| - 3..];
      assert s[..|s| - 3] == [c] + front && s[|s| - 3..] == back;
      GroupThousandsConsDot(c, front);
      var g := GroupThousands(front);
      calc {
        GroupThousands(s);
        (([c] + (['.'] + g)) + ".") + back;
        { AppendAssoc([c], ['.'] + g, "."); }
        ([c] + ((['.'] + g) + ".")) + back;
        { AppendAssoc([c], (['.'] + g) + ".", back); }
        [c] + (((['.'] + g) + ".") + back);
        { AppendAssoc(['.'], g, "."); AppendAssoc(['.'], g + ".", back); }
        [c] + (['.'] + ((g + ".") + back));
      }
    }
  }

  /** Putting one more digit in front of any other string grows its
      grouping by that digit alone. */
  lemma {:induction false} GroupThousandsConsPlain(c: char, x: string)
    requires !(|x| > 0 && |x| % 3 == 0)
    ensures GroupThousands([c] + x) == [c] + GroupThousands(x)
    decreases |x|
  {
    var s := [c] + x;
    if |x| > 3 {
      var front, back := x[..|x| - 3], x[|x| - 3..];
      assert s[..|s| - 3] == [c] + front && s[|s| - 3..] == back;
      GroupThousandsConsPlain(c, front);
      var g := GroupThousands(front);
      calc {
        GroupThousands(s);
        (([c] + g) + ".") + back;
        { AppendAssoc([c], g, "."); }
        ([c] + (g + ".")) + back;
        { AppendAssoc([c], g + ".", back); }
        [c] + ((g + ".") + back);
      }
    }
  }

  /** What `format_number(num)` returns. */
  function Formatted(num: int): string {
    if num < 1000 then IntToString(num) else GroupThousands(NatToString(num))
  }

  /** The early return for numbers below 1000 agrees with the grouping loop:
      such numbers have no more than three digits, so no dot goes in. */
  lemma FormattedSmall(num: nat)
    requires num < 1000
    ensures Formatted(num) == GroupThousands(NatToString(num))
  {
    NatToStringShort(num);
  }

  /** `s` read backwards: `reversed(...)` joined. */
  function Reverse(s: string): (r: string)
    ensures |r| == |s|
  {
    if s == [] then [] else [s[|s| - 1]] + Reverse(s[..|s| - 1])
  }

  lemma ReverseSnoc(p: string, c: char)
    ensures Reverse(p + [c]) == [c] + Reverse(p)
  {
    assert (p + [c])[..|p|] == p;
  }

  /** One round of the loop in FormatNumber that emits a dot: after `i`
      digits from the right the reversed output is the grouping of those
      digits, and a dot then the next digit extend it to `i + 1` digits. */
  lemma GroupStepDot(numStr: string, i: nat, parts: string)
    requires i < |numStr| && i > 0 && i % 3 == 0
    requires Reverse(parts) == GroupThousands(numStr[|numStr| - i..])
    ensures Reverse(parts + ['.'] + [numStr[|numStr| - 1 - i]]) == GroupThousands(numStr[|numStr| - (i + 1)..])
  {
    var n := |numStr|;
    var digit := numStr[n - 1 - i];
    var tail := numStr[n - i..];
    assert GroupThousands(numStr[n - (i + 1)..]) == [digit] + (['.'] + Reverse(parts)) by {
      assert numStr[n - (i + 1)..] == [digit] + tail;
      GroupThousandsConsDot(digit, tail);
    }
    assert Reverse(parts + ['.'] + [digit]) == [digit] + (['.'] + Reverse(parts)) by {
      ReverseSnoc(parts + ['.'], digit);
      ReverseSnoc(parts, '.');
    }
  }

  /** One round of the loop in FormatNumber that emits only the digit. */
  lemma GroupStepDigit(numStr: string, i: nat, parts: string)
    requires i < |numStr| && !(i > 0 && i % 3 == 0)
    requires Reverse(parts) == GroupThousands(numStr[|numStr| - i..])
    ensures Reverse(parts + [numStr[|numStr| - 1 - i]]) == GroupThousands(numStr[|numStr| - (i + 1)..])
  {
    var n := |numStr|;
    var digit := numStr[n - 1 - i];
    var tail := numStr[n - i..];
    assert GroupThousands(numStr[n - (i + 1)..]) == [digit] + Reverse(parts) by {
      assert numStr[n - (i + 1)..] == [digit] + tail;
      GroupThousandsConsPlain(digit, tail);
    }
    assert Reverse(parts + [digit]) == [digit] + Reverse(parts) by {
      ReverseSnoc(parts, digit);
    }
  }

  /** What the grouping loop of `format_number` guarantees for numbers of
      four digits or more. */
  lemma FormattedLarge(num: int)
    requires num >= 1000
    ensures RemoveDots(Formatted(num)) == NatToString(num)
    ensures DotsEveryThree(Formatted(num))
    ensures |Formatted(num)| > 0 && Formatted(num)[0] != '.'
    ensures Formatted(num)[|Formatted(num)| - 1] != '.'
  {
    var numStr := NatToString(num);
    GroupThousandsRemoveDots(numStr);
    GroupThousandsShape(numStr);
    GroupThousandsNoEdgeDots(numStr);
  }

  /** `format_number(num)`: the digits of `num` walked from the right, a dot
      emitted before every third one, and the collected characters reversed. */
  method FormatNumber(num: int) returns (r: string)
    ensures r == Formatted(num)
    ensures num < 1000 ==> r == IntToString(num)
    ensures num >= 1000 ==> RemoveDots(r) == NatToString(num)
    ensures num >= 1000 ==> DotsEveryThree(r) && r[0] != '.' && r[|r| - 1] != '.'
  {
    if num < 1000 {
      return IntToString(num);
    }
    var numStr := NatToString(num);
    var n := |numStr|;
    var parts: string := [];
    for i := 0 to n
      invariant Reverse(parts) == GroupThousands(numStr[n - i..])
    {
      var digit := numStr[n - 1 - i];
      if i > 0 && i % 3 == 0 {
        GroupStepDot(numStr, i, parts);
        parts := parts + ['.'];
      } else {
        GroupStepDigit(numStr, i, parts);
      }
      parts := parts + [digit];
    }
    assert numStr[n - n..] == numStr;
    r := Reverse(parts);
    FormattedLarge(num);
  }

  /** The worked examples of `format_number` around the first dot. */
  lemma FormattedExamples()
    ensures Formatted(999) == "999"
    ensures Formatted(1000) == "1.000"
  {
    assert NatToString(999) == "999";
    assert NatToString(1000) == "1000";
    assert GroupThousands("1000") == "1.000";
  }

  /** Three more digits on the right take one more dot. */
  lemma GroupThousandsSnoc(x: string, y: string)
    requires |x| >= 1 && |y| == 3
    ensures GroupThousands(x + y) == GroupThousands(x) + "." + y
  {
    assert (x + y)[..|x|] == x && (x + y)[|x|..] == y;
  }

  /** One more digit on the right of the decimal string. */
  lemma NatToStringLast(n: nat, front: string, d: nat)
    requires 1 <= n && d < 10 && NatToString(n) == front
    ensures NatToString(10 * n + d) == front + [DigitChar(d)]
  {
  }

  /** A seven-digit count takes two dots. */
  lemma FormattedMillion()
    ensures Formatted(1234567) == "1.234.567"
  {
    assert NatToString(1234567) == "1234567" by {
      NatToStringLast(1, "1", 2);
      NatToStringLast(12, "12", 3);
      NatToStringLast(123, "123", 4);
      NatToStringLast(1234, "1234", 5);
      NatToStringLast(12345, "12345", 6);
      NatToStringLast(123456, "123456", 7);
    }
    assert GroupThousands("1234567") == "1.234.567" by {
      GroupThousandsSnoc("1", "234");
      GroupThousandsSnoc("1234", "567");
      assert "1" + "234" == "1234" && "1234" + "567" == "1234567";
    }
  }
}
