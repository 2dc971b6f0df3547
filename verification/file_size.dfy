/**
 `formatFileSize`: a byte count below 1024 is printed as is, otherwise it is
 divided by 1024 or 1048576 and printed with one decimal by
 `Number.prototype.toFixed(1)`. Dividing by a power of two is exact for every
 file size (a safe integer), so the decimal digit follows from integer
 arithmetic: ECMA-262 section 21.1.3.3 picks the integer `n` for which
 `n / 10 - x` is closest to zero, the larger one on a tie, and writes its
 digits with a point before the last one.
 */
module FileSize {
  import opened Text

  const Kilo := 1024
  const Mega := 1048576

  /** `File.size` is a JavaScript number holding an integer: it stays below 2^53. */
  const SafeLimit := 0x20_0000_0000_0000

  /** `n` tenths are the rounding of `bytes / unit` that `toFixed(1)` chooses. */
  predicate Near(n: nat, bytes: nat, unit: nat)
  {
    (2 * n - 1) * unit <= 20 * bytes < (2 * n + 1) * unit
  }

  /** The `n` of `(bytes / unit).toFixed(1)`. */
  function Tenths(bytes: nat, unit: nat): (n: nat)
    requires unit > 0
    ensures Near(n, bytes, unit)
  {
    var q := (20 * bytes + unit) / (2 * unit);
    var m := (20 * bytes + unit) % (2 * unit);
    assert 20 * bytes + unit == q * (2 * unit) + m;
    assert (2 * q - 1) * unit == q * (2 * unit) - unit;
    assert (2 * q + 1) * unit == q * (2 * unit) + unit;
    q
  }

  /** Only one count of tenths is near: the rounding is a function of its input. */
  lemma NearUnique(n: nat, k: nat, bytes: nat, unit: nat)
    requires unit > 0 && Near(n, bytes, unit) && Near(k, bytes, unit)
    ensures n == k
  {
    if n < k {
      TimesUnitMonotone(2 * n + 1, 2 * k - 1, unit);
    } else if k < n {
      TimesUnitMonotone(2 * k + 1, 2 * n - 1, unit);
    }
  }

  lemma TimesUnitMonotone(a: int, b: int, unit: nat)
    requires a <= b
    ensures a * unit <= b * unit
  {
  }

  /** `toFixed(1)` on a value of `n` tenths: the digits of `n`, padded to two, with a point before the last. */
  function FixedOne(n: nat): string
  {
    var m := NatText(n);
    var padded := if |m| <= 1 then "0" + m else m;
    padded[..|padded| - 1] + "." + padded[|padded| - 1..]
  }

  /** The whole part, a point, and the tenths digit. */
  function Reading(n: nat, suffix: string): string
  {
    NatText(n / 10) + "." + [DigitChar(n % 10)] + suffix
  }

  /** `FixedOne` writes the whole part of `n / 10` and then its single decimal digit. */
  lemma FixedOneDigits(n: nat)
    ensures FixedOne(n) == NatText(n / 10) + "." + [DigitChar(n % 10)]
  {
    if n < 10 {
      assert NatText(n / 10) == "0";
    } else {
      var m := NatText(n);
      assert m == NatText(n / 10) + [DigitChar(n % 10)];
      assert m[..|m| - 1] == NatText(n / 10);
    }
  }

  function FormatFileSize(bytes: nat): (r: string)
    requires bytes < SafeLimit
    ensures bytes < Kilo ==> r == NatText(bytes) + " bytes"
    ensures Kilo <= bytes < Mega ==> exists n :: r == Reading(n, " KB") && Near(n, bytes, Kilo)
    ensures Mega <= bytes ==> exists n :: r == Reading(n, " MB") && Near(n, bytes, Mega)
  {
    if bytes < Kilo then NatText(bytes) + " bytes"
    else if bytes < Mega then
      var n := Tenths(bytes, Kilo);
      FixedOneDigits(n);
      assert FixedOne(n) + " KB" == Reading(n, " KB");
      FixedOne(n) + " KB"
    else
      var n := Tenths(bytes, Mega);
      FixedOneDigits(n);
      assert FixedOne(n) + " MB" == Reading(n, " MB");
      FixedOne(n) + " MB"
  }

  predicate EndsWith(s: string, suffix: string)
  {
    |suffix| <= |s| && s[|s| - |suffix|..] == suffix
  }

  /** The unit printed names the size range: each suffix appears exactly for its range. */
  lemma UnitNamesRange(bytes: nat)
    requires bytes < SafeLimit
    ensures EndsWith(FormatFileSize(bytes), " bytes") <==> bytes < Kilo
    ensures EndsWith(FormatFileSize(bytes), " KB") <==> Kilo <= bytes < Mega
    ensures EndsWith(FormatFileSize(bytes), " MB") <==> Mega <= bytes
  {
    var r := FormatFileSize(bytes);
    if bytes < Kilo {
      assert r[|r| - 1] == 's';
    } else if bytes < Mega {
      var n :| r == Reading(n, " KB") && Near(n, bytes, Kilo);
      assert r[|r| - 3..] == " KB";
      assert r[|r| - 1] == 'B';
    } else {
      var n :| r == Reading(n, " MB") && Near(n, bytes, Mega);
      assert r[|r| - 3..] == " MB";
      assert r[|r| - 1] == 'B';
    }
  }

  /** Below a kilobyte the exact count is printed. */
  lemma BytesExample()
    ensures FormatFileSize(1023) == "1023 bytes"
  {
    assert NatText(1023) == "1023";
  }

  /** Between a kilobyte and a megabyte, the reading is the one of any near count of tenths. */
  lemma KiloReading(bytes: nat, n: nat)
    requires Kilo <= bytes < Mega && Near(n, bytes, Kilo)
    ensures FormatFileSize(bytes) == Reading(n, " KB")
  {
    NearUnique(n, Tenths(bytes, Kilo), bytes, Kilo);
  }

  /** From a megabyte on, the same with megabytes. */
  lemma MegaReading(bytes: nat, n: nat)
    requires Mega <= bytes < SafeLimit && Near(n, bytes, Mega)
    ensures FormatFileSize(bytes) == Reading(n, " MB")
  {
    NearUnique(n, Tenths(bytes, Mega), bytes, Mega);
  }

  /** A kilobyte and a half: ten and fifteen tenths of a kilobyte. */
  lemma KiloExamples()
    ensures FormatFileSize(1024) == "1.0 KB"
    ensures FormatFileSize(1536) == "1.5 KB"
  {
    KiloReading(1024, 10);
    KiloReading(1536, 15);
    SmallReadingTexts();
  }

  lemma SmallReadingTexts()
    ensures Reading(10, " KB") == "1.0 KB"
    ensures Reading(15, " KB") == "1.5 KB"
    ensures Reading(10, " MB") == "1.0 MB"
  {
    assert NatText(1) == "1";
  }

  /**
   The unit is chosen on the exact byte count, before rounding: one byte short
   of a megabyte reads "1024.0 KB", and one byte later "1.0 MB".
   */
  lemma MegaBoundary()
    ensures FormatFileSize(1048575) == "1024.0 KB"
    ensures FormatFileSize(1048576) == "1.0 MB"
  {
    LastKilo();
    FirstMega();
  }

  lemma LastKilo()
    ensures FormatFileSize(1048575) == "1024.0 KB"
  {
    KiloReading(1048575, 10240);
    KiloReadingText();
  }

  lemma KiloReadingText()
    ensures Reading(10240, " KB") == "1024.0 KB"
  {
    assert NatText(10) == "10";
    assert NatText(102) == "102";
    assert NatText(1024) == "1024";
  }

  lemma FirstMega()
    ensures FormatFileSize(1048576) == "1.0 MB"
  {
    MegaReading(1048576, 10);
    SmallReadingTexts();
  }
}
