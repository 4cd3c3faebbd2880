/**
 * The string operations the source relies on: Python's `str.split(sep)` with `[-1]`,
 * JavaScript's `String(n)` for integers and `padStart`.
 */
module Text {

  /**
   * Python's `s.split(sep)` for a single-character separator: the maximal runs of
   * non-separator characters between separators, empty ones included.
   */
  function Split(s: string, sep: char): (parts: seq<string>)
    ensures |parts| >= 1
    ensures forall i :: 0 <= i < |parts| ==> sep !in parts[i]
    ensures |parts| == 1 <==> sep !in s
    decreases |s|
  {
    if s == [] then [[]]
    else
      var init := Split(s[..|s| - 1], sep);
      var c := s[|s| - 1];
      assert s == s[..|s| - 1] + [c];
      if c == sep then init + [[]]
      else init[..|init| - 1] + [init[|init| - 1] + [c]]
  }

  /** Python's `sep.join(parts)`. */
  function Join(parts: seq<string>, sep: char): string
    requires |parts| >= 1
    decreases |parts|
  {
    if |parts| == 1 then parts[0]
    else Join(parts[..|parts| - 1], sep) + [sep] + parts[|parts| - 1]
  }

  /** Joining the pieces of a split gives back the string. */
  lemma {:induction false} JoinSplit(s: string, sep: char)
    ensures Join(Split(s, sep), sep) == s
    decreases |s|
  {
    if s != [] {
      var t, c := s[..|s| - 1], s[|s| - 1];
      var init := Split(t, sep);
      JoinSplit(t, sep);
      assert s == t + [c];
      if c == sep {
        var parts := init + [[]];
        assert parts[..|parts| - 1] == init;
      } else {
        var k := |init|;
        var parts := init[..k - 1] + [init[k - 1] + [c]];
        if k == 1 {
          assert Join(parts, sep) == init[0] + [c];
        } else {
          assert parts[..k - 1] == init[..k - 1];
          assert init[..k - 1] == (init[..k - 1] + [init[k - 1]])[..k - 1];
          assert Join(init, sep) == Join(init[..k - 1], sep) + [sep] + init[k - 1];
          assert Join(parts, sep) == Join(init[..k - 1], sep) + [sep] + (init[k - 1] + [c]);
        }
      }
    }
  }

  /** Appending a separator and a separator-free piece adds exactly that piece to the split. */
  lemma {:induction false} SplitAppendPiece(x: string, sep: char, y: string)
    requires sep !in y
    ensures Split(x + [sep] + y, sep) == Split(x, sep) + [y]
    decreases |y|
  {
    if y == [] {
      assert x + [sep] + y == x + [sep];
      assert (x + [sep])[..|x + [sep]| - 1] == x;
    } else {
      var y', c := y[..|y| - 1], y[|y| - 1];
      SplitAppendPiece(x, sep, y');
      var s := x + [sep] + y;
      assert s[..|s| - 1] == x + [sep] + y';
      assert s[|s| - 1] == c;
      var init := Split(x + [sep] + y', sep);
      assert init[..|init| - 1] == Split(x, sep);
      assert y' + [c] == y;
    }
  }

  /** A separator-free string splits into itself alone. */
  lemma {:induction false} SplitWithoutSep(s: string, sep: char)
    requires sep !in s
    ensures Split(s, sep) == [s]
    decreases |s|
  {
    if s != [] {
      var t, c := s[..|s| - 1], s[|s| - 1];
      assert s == t + [c];
      SplitWithoutSep(t, sep);
    }
  }

  /** Splitting undoes joining separator-free pieces. */
  lemma {:induction false} SplitJoin(parts: seq<string>, sep: char)
    requires |parts| >= 1
    requires forall i :: 0 <= i < |parts| ==> sep !in parts[i]
    ensures Split(Join(parts, sep), sep) == parts
    decreases |parts|
  {
    if |parts| == 1 {
      SplitWithoutSep(parts[0], sep);
    } else {
      var init := parts[..|parts| - 1];
      SplitJoin(init, sep);
      SplitAppendPiece(Join(init, sep), sep, parts[|parts| - 1]);
      assert init + [parts[|parts| - 1]] == parts;
    }
  }

  /** Python's `s.split(sep)[-1]`. */
  function LastPart(s: string, sep: char): string {
    var parts := Split(s, sep);
    parts[|parts| - 1]
  }

  /**
   * The last part is the text after the last separator: it holds no separator, and the
   * string is some prefix, a separator and that text; with no separator it is the string.
   */
  lemma LastPartAfterLastSep(s: string, sep: char)
    ensures sep !in LastPart(s, sep)
    ensures sep !in s ==> LastPart(s, sep) == s
    ensures sep in s ==> exists x :: s == x + [sep] + LastPart(s, sep)
  {
    var parts := Split(s, sep);
    JoinSplit(s, sep);
    if sep !in s {
      SplitWithoutSep(s, sep);
    } else {
      var x := Join(parts[..|parts| - 1], sep);
      assert s == x + [sep] + LastPart(s, sep);
    }
  }

  /** The text after the final separator of `x + sep + y` is `y` when `y` holds none. */
  lemma LastPartOfAppend(x: string, sep: char, y: string)
    requires sep !in y
    ensures LastPart(x + [sep] + y, sep) == y
  {
    SplitAppendPiece(x, sep, y);
  }

  /**
   * The file extension used by both upload handlers:
   * `name.split('.')[-1] if '.' in name else fallback`.
   */
  function Extension(name: string, fallback: string): (ext: string)
    ensures '.' !in name ==> ext == fallback
    ensures '.' in name ==> '.' !in ext && exists x :: name == x + ['.'] + ext
  {
    if '.' in name then
      LastPartAfterLastSep(name, '.');
      LastPart(name, '.')
    else fallback
  }

  /** The character of a decimal digit. */
  function DigitChar(d: int): (c: char)
    requires 0 <= d < 10
    ensures '0' <= c <= '9'
  {
    ('0' as int + d) as char
  }

  /** The value of a decimal digit character. */
  function DigitValue(c: char): (d: int)
    requires '0' <= c <= '9'
    ensures 0 <= d < 10 && DigitChar(d) == c
  {
    c as int - '0' as int
  }

  predicate AllDigits(s: string) {
    forall i :: 0 <= i < |s| ==> '0' <= s[i] <= '9'
  }

  /** The number a string of decimal digits spells, most significant digit first. */
  function DecimalValue(s: string): nat
    requires AllDigits(s)
  {
    if s == [] then 0
    else
      DecimalValue(s[..|s| - 1]) * 10 + DigitValue(s[|s| - 1])
  }

  /** JavaScript's `String(n)` for a non-negative integer. */
  function NatToString(n: nat): (s: string)
    ensures 1 <= |s| && AllDigits(s)
    ensures n < 10 <==> |s| == 1
  {
    if n < 10 then [DigitChar(n)] else NatToString(n / 10) + [DigitChar(n % 10)]
  }

  /** `String(n)` spells `n` in decimal digits, with no leading zero. */
  lemma {:induction false} NatToStringSpells(n: nat)
    ensures DecimalValue(NatToString(n)) == n
    ensures |NatToString(n)| > 1 ==> NatToString(n)[0] != '0'
    ensures n >= 1 ==> NatToString(n)[0] != '0'
  {
    if n >= 10 {
      NatToStringSpells(n / 10);
      var s := NatToString(n);
      assert s[..|s| - 1] == NatToString(n / 10);
    }
  }

  /** JavaScript's `String(n)` for an integer: a `-` exactly when `n` is negative. */
  function IntToString(n: int): (s: string)
    ensures 1 <= |s|
    ensures n < 0 <==> s[0] == '-'
  {
    if n < 0 then "-" + NatToString(-n) else NatToString(n)
  }

  /** After the sign, `String(n)` spells `|n|` in decimal digits, with no leading zero. */
  lemma IntToStringSpells(n: int)
    ensures var s := IntToString(n);
      var digits := if n < 0 then s[1..] else s;
      1 <= |digits| && AllDigits(digits) && (|digits| > 1 ==> digits[0] != '0') &&
      DecimalValue(digits) == (if n < 0 then -n else n)
  {
    var m := if n < 0 then -n else n;
    NatToStringSpells(m);
    if n < 0 {
      assert IntToString(n)[1..] == NatToString(m);
    }
  }

  /** JavaScript's `s.padStart(len, fill)` with a one-character fill. */
  function PadStart(s: string, len: nat, fill: char): (r: string)
    ensures |s| >= len ==> r == s
    ensures |s| < len ==> |r| == len && r[len - |s|..] == s
    ensures forall i :: 0 <= i < |r| - |s| ==> r[i] == fill
    decreases len - |s|
  {
    if |s| >= len then s else PadStart([fill] + s, len, fill)
  }

  /** `String(n).padStart(2, '0')` for `n < 100` is the two decimal digits of `n`. */
  lemma TwoDigits(n: nat)
    requires n < 100
    ensures PadStart(NatToString(n), 2, '0') == [DigitChar(n / 10), DigitChar(n % 10)]
  {
    if n < 10 {
      assert PadStart(NatToString(n), 2, '0') == PadStart(['0', DigitChar(n)], 2, '0');
    } else {
      assert NatToString(n / 10) == [DigitChar(n / 10)];
    }
  }

  /** Distinct numbers below 100 pad to distinct two-character strings. */
  lemma TwoDigitsInjective(a: nat, b: nat)
    requires a < 100 && b < 100
    requires PadStart(NatToString(a), 2, '0') == PadStart(NatToString(b), 2, '0')
    ensures a == b
  {
    TwoDigits(a);
    TwoDigits(b);
    var sa, sb := PadStart(NatToString(a), 2, '0'), PadStart(NatToString(b), 2, '0');
    assert DigitChar(a / 10) == sa[0] == sb[0] == DigitChar(b / 10);
    assert DigitChar(a % 10) == sa[1] == sb[1] == DigitChar(b % 10);
  }
}
