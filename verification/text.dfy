/**
 The few JavaScript string operations the table engine relies on:
 the decimal text of an integer (`Number.prototype.toString`), reading it
 back (`Number.parseInt`), and substring search (`String.prototype.includes`).
 Strings are sequences of characters; characters stand for UTF-16 code units.
 */
module Text {
  import opened Wrappers

  predicate IsDigit(c: char) { '0' <= c <= '9' }

  predicate AllDigits(s: string) { forall i :: 0 <= i < |s| ==> IsDigit(s[i]) }

  function DigitValue(c: char): nat
    requires IsDigit(c)
  {
    c as int - '0' as int
  }

  function DigitChar(d: nat): (c: char)
    requires d < 10
    ensures IsDigit(c) && DigitValue(c) == d
  {
    ('0' as int + d) as char
  }

  /** Decimal text of a natural number: no sign and no leading zero. */
  function NatText(n: nat): (r: string)
    ensures |r| > 0 && AllDigits(r)
    ensures r[0] == '0' ==> n == 0
  {
    if n < 10 then [DigitChar(n)] else NatText(n / 10) + [DigitChar(n % 10)]
  }

  /** Decimal text of an integer, as `Number.prototype.toString` writes it. */
  function IntText(i: int): (r: string)
  {
    if i < 0 then "-" + NatText(-i) else NatText(i)
  }

  /** The number a string of decimal digits denotes. */
  function DigitsValue(s: string): nat
    requires AllDigits(s)
  {
    if |s| == 0 then 0 else DigitsValue(s[..|s| - 1]) * 10 + DigitValue(s[|s| - 1])
  }

  /** Length of the longest prefix of `s` made of decimal digits. */
  function DigitRun(s: string): (k: nat)
    ensures k <= |s| && AllDigits(s[..k])
    ensures k < |s| ==> !IsDigit(s[k])
  {
    if |s| == 0 || !IsDigit(s[0]) then 0 else 1 + DigitRun(s[1..])
  }

  /** `s` without a leading sign character. */
  function Unsigned(s: string): string
  {
    if |s| > 0 && (s[0] == '-' || s[0] == '+') then s[1..] else s
  }

  /**
   `Number.parseInt(s)` on decimal text: an optional sign, then the longest run
   of decimal digits; whatever follows is ignored. `None` stands for NaN, the
   result when no digit follows the sign.
   */
  function ParseInt(s: string): Option<int>
  {
    var body := Unsigned(s);
    var k := DigitRun(body);
    if k == 0 then None
    else
      var v: int := DigitsValue(body[..k]);
      Some(if |s| > 0 && s[0] == '-' then -v else v)
  }

  /** Reading the decimal text of `n` gives back `n`. */
  lemma {:induction false} NatTextValue(n: nat)
    ensures DigitsValue(NatText(n)) == n
  {
    var r := NatText(n);
    if n < 10 {
      assert r[..0] == [];
    } else {
      NatTextValue(n / 10);
      assert r[..|r| - 1] == NatText(n / 10);
    }
  }

  /** `parseInt` reads back the text `toString` wrote, even with a non-digit tail after it. */
  lemma ParseIntText(i: int, rest: string)
    requires |rest| == 0 || !IsDigit(rest[0])
    ensures ParseInt(IntText(i) + rest) == Some(i)
  {
    var n: nat := if i < 0 then -i else i;
    var t := NatText(n);
    var body := t + rest;
    DigitRunOfDigits(t, rest);
    NatTextValue(n);
    assert body[..|t|] == t;
    if i < 0 {
      var s := "-" + body;
      assert IntText(i) + rest == s;
      assert s[1..] == body;
      assert Unsigned(s) == body;
    } else {
      assert IntText(i) + rest == body;
      assert IsDigit(body[0]);
      assert Unsigned(body) == body;
    }
  }

  /** The digit run of a digit string followed by a non-digit is that digit string. */
  lemma {:induction false} DigitRunOfDigits(t: string, rest: string)
    requires AllDigits(t)
    requires |rest| == 0 || !IsDigit(rest[0])
    ensures DigitRun(t + rest) == |t|
  {
    if |t| == 0 {
      assert t + rest == rest;
    } else {
      assert (t + rest)[1..] == t[1..] + rest;
      DigitRunOfDigits(t[1..], rest);
    }
  }

  /** Decimal text determines the integer it was written from. */
  lemma IntTextInjective(i: int, j: int)
    requires IntText(i) == IntText(j)
    ensures i == j
  {
    ParseIntText(i, "");
    ParseIntText(j, "");
    assert IntText(i) + "" == IntText(i);
    assert IntText(j) + "" == IntText(j);
  }

  /** Text that starts with neither a digit nor a sign reads as NaN. */
  lemma ParseIntNaN(s: string)
    requires |s| == 0 || (!IsDigit(s[0]) && s[0] != '-' && s[0] != '+')
    ensures ParseInt(s) == None
  {
  }

  /** `needle` occurs in `s` starting at index `i`. */
  predicate OccursAt(s: string, needle: string, i: int)
  {
    0 <= i && i + |needle| <= |s| && s[i..i + |needle|] == needle
  }

  /** `s.includes(needle)`: the scan tries every start position from the left. */
  predicate Contains(s: string, needle: string)
    decreases |s|
  {
    |needle| <= |s| && (s[..|needle|] == needle || Contains(s[1..], needle))
  }

  /** The scan finds `needle` exactly when it occurs at some position; the empty needle occurs everywhere. */
  lemma {:induction false} ContainsOccurs(s: string, needle: string)
    ensures Contains(s, needle) <==> exists i :: OccursAt(s, needle, i)
    decreases |s|
  {
    if Contains(s, needle) {
      if s[..|needle|] == needle {
        assert OccursAt(s, needle, 0);
      } else {
        ContainsOccurs(s[1..], needle);
        var j :| OccursAt(s[1..], needle, j);
        assert s[1..][j..j + |needle|] == s[j + 1..j + 1 + |needle|];
        assert OccursAt(s, needle, j + 1);
      }
    }
    if exists i :: OccursAt(s, needle, i) {
      var i :| OccursAt(s, needle, i);
      if i > 0 {
        assert s[1..][i - 1..i - 1 + |needle|] == s[i..i + |needle|];
        assert OccursAt(s[1..], needle, i - 1);
        ContainsOccurs(s[1..], needle);
      }
    }
  }
}
