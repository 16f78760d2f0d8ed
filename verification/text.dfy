/** Character-level helpers standing in for the Python string and regex
    operations the parsers rely on: decimal digit runs (`[0-9]+`, `int()`),
    zero-padded decimal fields (`strftime`) and `str.split("/P")`. */
module Text {
  import opened Results

  predicate IsDigit(c: char) {
    '0' <= c <= '9'
  }

  function DigitValue(c: char): nat
    requires IsDigit(c)
  {
    c as int - '0' as int
  }

  function DigitChar(d: nat): (c: char)
    requires d < 10
    ensures IsDigit(c) && DigitValue(c) == d
  {
    ('0' as int + d) as char
  }

  predicate AllDigits(s: string) {
    forall i :: 0 <= i < |s| ==> IsDigit(s[i])
  }

  /** The number a run of ASCII digits denotes, read the way `int()` reads it
      (leading zeros allowed). */
  function DecimalValue(s: string): nat
    requires AllDigits(s)
    decreases |s|
  {
    if |s| == 0 then 0 else DecimalValue(s[..|s| - 1]) * 10 + DigitValue(s[|s| - 1])
  }

  lemma DecimalValueSnoc(s: string, c: char)
    requires AllDigits(s) && IsDigit(c)
    ensures AllDigits(s + [c])
    ensures DecimalValue(s + [c]) == DecimalValue(s) * 10 + DigitValue(c)
  {
    assert (s + [c])[..|s|] == s;
  }

  /** Length of the longest prefix of `s` made only of digits: the extent of a
      greedy `[0-9]+` anchored at the start of `s`. */
  function LeadingDigits(s: string): (k: nat)
    ensures k <= |s|
    ensures AllDigits(s[..k])
    ensures k < |s| ==> !IsDigit(s[k])
  {
    if |s| == 0 || !IsDigit(s[0]) then 0
    else
      var k' := LeadingDigits(s[1..]);
      assert s[..1 + k'] == [s[0]] + s[1..][..k'];
      1 + k'
  }

  /** A digit prefix that ends at a non-digit is the longest one, so a greedy
      match and any successful match agree on where the digits stop. */
  lemma {:induction false} LeadingDigitsUnique(s: string, k: nat)
    requires k < |s| && AllDigits(s[..k]) && !IsDigit(s[k])
    ensures LeadingDigits(s) == k
    decreases k
  {
    if k > 0 {
      assert s[1..][..k - 1] == s[1..k];
      LeadingDigitsUnique(s[1..], k - 1);
    }
  }

  /** Every digit prefix that ends at a non-digit has the greedy length. */
  lemma LeadingDigitsUniqueAll(s: string)
    ensures forall k :: 0 <= k < |s| && AllDigits(s[..k]) && !IsDigit(s[k]) ==> LeadingDigits(s) == k
  {
    forall k | 0 <= k < |s| && AllDigits(s[..k]) && !IsDigit(s[k])
      ensures LeadingDigits(s) == k
    {
      LeadingDigitsUnique(s, k);
    }
  }

  function Pow10(n: nat): (p: nat)
    ensures p >= 1
  {
    if n == 0 then 1 else 10 * Pow10(n - 1)
  }

  /** `n` written in exactly `width` decimal digits, zero-padded on the left
      (the `%Y`, `%m`, `%d`, `%H`, `%M`, `%S` fields of `strftime`). */
  function Padded(n: nat, width: nat): (s: string)
    requires n < Pow10(width)
    ensures |s| == width && AllDigits(s)
    decreases width
  {
    if width == 0 then ""
    else Padded(n / 10, width - 1) + [DigitChar(n % 10)]
  }

  /** The padded numeral reads back as the number it was made from. */
  lemma {:induction false} PaddedValue(n: nat, width: nat)
    requires n < Pow10(width)
    ensures DecimalValue(Padded(n, width)) == n
    decreases width
  {
    if width > 0 {
      PaddedValue(n / 10, width - 1);
      DecimalValueSnoc(Padded(n / 10, width - 1), DigitChar(n % 10));
    }
  }

  /** Every digit string is the padded form of its own value at its own width. */
  lemma {:induction false} PaddedOfDecimal(s: string)
    requires AllDigits(s)
    ensures DecimalValue(s) < Pow10(|s|)
    ensures Padded(DecimalValue(s), |s|) == s
    decreases |s|
  {
    if |s| > 0 {
      var front := s[..|s| - 1];
      assert AllDigits(front);
      PaddedOfDecimal(front);
      var n := DecimalValue(s);
      assert n / 10 == DecimalValue(front);
      assert DigitChar(n % 10) == s[|s| - 1];
      assert s == front + [s[|s| - 1]];
    }
  }

  /** Shortest decimal numeral of `n` (no leading zeros). */
  function Numeral(n: nat): (s: string)
    ensures 1 <= |s| && AllDigits(s)
    ensures DecimalValue(s) == n
    ensures |s| > 1 ==> s[0] != '0'
    decreases n
  {
    if n < 10 then [DigitChar(n)]
    else
      var front := Numeral(n / 10);
      DecimalValueSnoc(front, DigitChar(n % 10));
      front + [DigitChar(n % 10)]
  }

  // ---------------------------------------------------------------------
  // str.split("/P")

  /** The two-character separator "/P" starts at index `i` of `s`. */
  predicate SeparatorAt(s: string, i: int) {
    0 <= i && i + 1 < |s| && s[i] == '/' && s[i + 1] == 'P'
  }

  predicate HasSeparator(s: string) {
    exists i | 0 <= i < |s| :: SeparatorAt(s, i)
  }

  /** `s.split("/P")`: the pieces between non-overlapping occurrences of the
      separator, found left to right. There is always at least one piece, and
      the first piece is a prefix of `s`. */
  function Split(s: string): (parts: seq<string>)
    ensures |parts| >= 1
    ensures |parts[0]| <= |s| && parts[0] == s[..|parts[0]|]
    decreases |s|
  {
    if |s| < 2 then [s]
    else if SeparatorAt(s, 0) then [""] + Split(s[2..])
    else
      var rest := Split(s[1..]);
      [[s[0]] + rest[0]] + rest[1..]
  }

  /** `"/P".join(parts)`. */
  function Join(parts: seq<string>): string
    requires |parts| >= 1
    decreases |parts|
  {
    if |parts| == 1 then parts[0] else parts[0] + "/P" + Join(parts[1..])
  }

  /** Joining the pieces back with the separator restores the string. */
  lemma {:induction false} JoinSplit(s: string)
    ensures Join(Split(s)) == s
    decreases |s|
  {
    if |s| < 2 {
    } else if SeparatorAt(s, 0) {
      JoinSplit(s[2..]);
      assert s == "/P" + s[2..];
    } else {
      JoinSplit(s[1..]);
      var rest := Split(s[1..]);
      if |rest| == 1 {
        assert Join(Split(s)) == [s[0]] + rest[0];
      } else {
        assert Join(Split(s)) == [s[0]] + rest[0] + "/P" + Join(rest[1..]);
        assert Join(rest) == rest[0] + "/P" + Join(rest[1..]);
      }
      assert s == [s[0]] + s[1..];
    }
  }

  /** No piece produced by the split contains the separator. */
  lemma {:induction false} SplitPiecesAreClean(s: string)
    ensures forall j :: 0 <= j < |Split(s)| ==> !HasSeparator(Split(s)[j])
    decreases |s|
  {
    if |s| < 2 {
      if |s| == 1 {
        assert forall i :: !SeparatorAt(s, i);
      }
    } else if SeparatorAt(s, 0) {
      SplitPiecesAreClean(s[2..]);
      var parts := Split(s);
      assert parts == [""] + Split(s[2..]);
      forall j | 0 <= j < |parts|
        ensures !HasSeparator(parts[j])
      {
        if j > 0 {
          assert parts[j] == Split(s[2..])[j - 1];
        }
      }
    } else {
      SplitPiecesAreClean(s[1..]);
      var rest := Split(s[1..]);
      var first := [s[0]] + rest[0];
      var parts := Split(s);
      assert parts == [first] + rest[1..];
      forall j | 0 <= j < |parts|
        ensures !HasSeparator(parts[j])
      {
        if j == 0 {
          assert !HasSeparator(rest[0]);
          forall i | SeparatorAt(first, i)
            ensures false
          {
            if i > 0 {
              assert SeparatorAt(rest[0], i - 1);
            }
          }
        } else {
          assert parts[j] == rest[j];
        }
      }
    }
  }

  /** A string without the separator splits into itself alone. */
  lemma {:induction false} SplitClean(s: string)
    requires !HasSeparator(s)
    ensures Split(s) == [s]
    decreases |s|
  {
    if |s| >= 2 {
      assert !SeparatorAt(s, 0);
      assert !HasSeparator(s[1..]) by {
        forall i | SeparatorAt(s[1..], i) ensures false {
          assert SeparatorAt(s, i + 1);
        }
      }
      SplitClean(s[1..]);
      assert s == [s[0]] + s[1..];
    }
  }

  /** Splitting `x + "/P" + y` where `x` is free of the separator: the first
      occurrence is the one written between them. */
  lemma {:induction false} SplitAfterClean(x: string, y: string)
    requires !HasSeparator(x)
    ensures Split(x + "/P" + y) == [x] + Split(y)
    decreases |x|
  {
    var s := x + "/P" + y;
    if |x| == 0 {
      assert s == "/P" + y;
      assert SeparatorAt(s, 0);
      assert s[2..] == y;
    } else {
      assert !SeparatorAt(s, 0) by {
        if |x| == 1 {
          assert s[1] == '/';
        } else {
          assert !SeparatorAt(x, 0);
        }
      }
      assert !HasSeparator(x[1..]) by {
        forall i | SeparatorAt(x[1..], i) ensures false {
          assert SeparatorAt(x, i + 1);
        }
      }
      SplitAfterClean(x[1..], y);
      assert s[1..] == x[1..] + "/P" + y;
      assert x == [s[0]] + x[1..];
    }
  }
}
