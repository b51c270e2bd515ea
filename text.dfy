/**
 * The pieces of Rust's text formatting the renderer's output relies on:
 * unsigned integers in decimal, and splitting text at a separator character
 * (the inverse used to state what the output means).
 */
module Text {
  import opened Wrappers

  predicate IsDigit(c: char) {
    '0' <= c <= '9'
  }

  predicate AllDigits(s: string) {
    forall i :: 0 <= i < |s| ==> IsDigit(s[i])
  }

  function DigitChar(d: nat): (c: char)
    requires d < 10
    ensures IsDigit(c)
  {
    ('0' as int + d) as char
  }

  function DigitValue(c: char): (d: nat)
    requires IsDigit(c)
    ensures d < 10 && DigitChar(d) == c
  {
    c as int - '0' as int
  }

  /** Rust's `Display` for an unsigned integer: decimal digits, no sign, no leading zero. */
  function Decimal(n: nat): string
    decreases n
  {
    if n < 10 then [DigitChar(n)] else Decimal(n / 10) + [DigitChar(n % 10)]
  }

  /** The decimal form is a non-empty run of digits with no leading zero. */
  lemma {:induction false} DecimalDigits(n: nat)
    ensures 1 <= |Decimal(n)| && AllDigits(Decimal(n))
    ensures Decimal(n)[0] == '0' ==> n == 0
    decreases n
  {
    if n >= 10 {
      DecimalDigits(n / 10);
    }
  }

  /** Reads a string of decimal digits back as a number (most significant digit first). */
  function ParseDecimal(s: string): nat
    requires AllDigits(s)
  {
    if s == [] then 0 else ParseDecimal(s[..|s| - 1]) * 10 + DigitValue(s[|s| - 1])
  }

  /** Reading back the decimal form of `n` gives `n`. */
  lemma {:induction false} DecimalRoundTrip(n: nat)
    ensures AllDigits(Decimal(n)) && ParseDecimal(Decimal(n)) == n
    decreases n
  {
    DecimalDigits(n);
    var s := Decimal(n);
    if n >= 10 {
      DecimalRoundTrip(n / 10);
      assert s[..|s| - 1] == Decimal(n / 10);
    }
  }

  /** Digits hold no separator: no TAB, no space, no newline. */
  lemma DecimalHasNoSeparator(n: nat)
    ensures '\t' !in Decimal(n) && ' ' !in Decimal(n) && '\n' !in Decimal(n)
  {
    DecimalDigits(n);
  }

  /**
   * Splits off the text before the first `sep` and the text after it;
   * None when the string holds no `sep`.
   */
  function TakeField(s: string, sep: char): (r: Option<(string, string)>)
    ensures r.Some? ==> |r.value.1| < |s|
  {
    if s == [] then None
    else if s[0] == sep then Some(([], s[1..]))
    else match TakeField(s[1..], sep)
      case None => None
      case Some((f, rest)) => Some(([s[0]] + f, rest))
  }

  /**
   * The split is exact: the field holds no separator and the string is the
   * field, the separator and the rest; None only for a string without one.
   */
  lemma {:induction false} TakeFieldSplits(s: string, sep: char)
    ensures TakeField(s, sep).Some? ==>
              var (f, rest) := TakeField(s, sep).value;
              sep !in f && s == f + [sep] + rest
    ensures TakeField(s, sep).None? <==> sep !in s
    decreases |s|
  {
    if s != [] && s[0] != sep {
      TakeFieldSplits(s[1..], sep);
      assert s == [s[0]] + s[1..];
    }
  }

  /** A field without the separator is split off exactly. */
  lemma {:induction false} TakeFieldAt(a: string, sep: char, b: string)
    requires sep !in a
    ensures TakeField(a + [sep] + b, sep) == Some((a, b))
    decreases |a|
  {
    var s := a + [sep] + b;
    if a == [] {
      assert s[1..] == b;
    } else {
      assert s[0] == a[0] && s[1..] == a[1..] + [sep] + b;
      TakeFieldAt(a[1..], sep, b);
      assert [a[0]] + a[1..] == a;
    }
  }

  /** The lines of a text: the pieces between newlines, a trailing unterminated piece last. */
  function Lines(s: string): seq<string>
    decreases |s|
  {
    match TakeField(s, '\n')
    case None => if s == [] then [] else [s]
    case Some((line, rest)) => [line] + Lines(rest)
  }

  lemma LinesCons(line: string, rest: string)
    requires '\n' !in line
    ensures Lines(line + "\n" + rest) == [line] + Lines(rest)
  {
    TakeFieldAt(line, '\n', rest);
  }

  /** Three newline-terminated lines. */
  lemma ThreeLines(a: string, b: string, c: string)
    requires '\n' !in a && '\n' !in b && '\n' !in c
    ensures WholeLines(a + "\n" + b + "\n" + c + "\n")
    ensures Lines(a + "\n" + b + "\n" + c + "\n") == [a, b, c]
  {
    assert a + "\n" + b + "\n" + c + "\n" == a + "\n" + (b + "\n" + (c + "\n" + []));
    LinesCons(a, b + "\n" + (c + "\n" + []));
    LinesCons(b, c + "\n" + []);
    LinesCons(c, []);
  }

  /** Text made of whole lines: empty, or ending with a newline. */
  predicate WholeLines(s: string) {
    s == [] || s[|s| - 1] == '\n'
  }

  /** Appending one more newline-terminated line to whole lines adds exactly that line. */
  lemma {:induction false} LinesSnoc(a: string, b: string)
    requires WholeLines(a) && '\n' !in b
    ensures Lines(a + b + "\n") == Lines(a) + [b]
    decreases |a|
  {
    if a == [] {
      assert a + b + "\n" == b + "\n" + [];
      LinesCons(b, []);
    } else {
      assert a[|a| - 1] in a;
      TakeFieldSplits(a, '\n');
      var (line, rest) := TakeField(a, '\n').value;
      assert a == line + "\n" + rest;
      assert WholeLines(rest) by {
        if rest != [] {
          assert rest[|rest| - 1] == a[|a| - 1];
        }
      }
      assert Lines(a) == [line] + Lines(rest) by {
        LinesCons(line, rest);
      }
      assert Lines(a + b + "\n") == [line] + Lines(rest + b + "\n") by {
        assert a + b + "\n" == line + "\n" + (rest + b + "\n");
        LinesCons(line, rest + b + "\n");
      }
      LinesSnoc(rest, b);
    }
  }
}
