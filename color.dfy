/**
 * An 8-bit RGB pixel and its text form in the picture output: the three
 * components in decimal, each followed by a TAB.
 */
module Color {
  import opened Wrappers
  import opened Text
  import opened Bytes

  datatype Color = Color(r: byte, g: byte, b: byte) {

    /** `format!("{}\t{}\t{}\t", r, g, b)`. */
    function ToString(): string
    {
      Fields([r, g, b])
    }
  }

  /** Each component in decimal, followed by a TAB. */
  function Fields(vs: seq<byte>): string
  {
    if vs == [] then [] else Decimal(vs[0] as nat) + "\t" + Fields(vs[1..])
  }

  /** A `u8` prints with one to three digits. */
  lemma {:induction false} DecimalOfByteWidth(n: nat)
    requires n < 256
    ensures 1 <= |Decimal(n)| <= 3
  {
    DecimalDigits(n);
    if n >= 10 {
      if n / 10 >= 10 {
        assert n / 10 / 10 < 10;
        assert |Decimal(n / 10 / 10)| == 1;
      }
      assert |Decimal(n / 10)| <= 2;
    }
  }

  /**
   * The text form holds exactly three TABs, ends with one, has no newline,
   * and is six to twelve characters long (one to three digits per field).
   */
  lemma ToStringShape(c: Color)
    ensures var s := c.ToString();
      s[|s| - 1] == '\t' && multiset(s)['\t'] == 3 && '\n' !in s && 6 <= |s| <= 12
  {
    ToStringSpelled(c);
    DecimalOfByteWidth(c.r as nat);
    DecimalOfByteWidth(c.g as nat);
    DecimalOfByteWidth(c.b as nat);
    DecimalHasNoSeparator(c.r as nat);
    DecimalHasNoSeparator(c.g as nat);
    DecimalHasNoSeparator(c.b as nat);
  }

  /** A field that reads as a `u8`: one to three digits, value below 256. */
  predicate IsByteField(f: string) {
    1 <= |f| <= 3 && AllDigits(f) && ParseDecimal(f) < 256
  }

  /** Reads one TAB-terminated colour off the front of `s`, with the text after it. */
  function ParseFirst(s: string): Option<(Color, string)> {
    match TakeField(s, '\t')
    case None => None
    case Some((f0, s1)) =>
      match TakeField(s1, '\t')
      case None => None
      case Some((f1, s2)) =>
        match TakeField(s2, '\t')
        case None => None
        case Some((f2, rest)) =>
          if IsByteField(f0) && IsByteField(f1) && IsByteField(f2)
          then Some((Color(ParseDecimal(f0) as byte, ParseDecimal(f1) as byte, ParseDecimal(f2) as byte), rest))
          else None
  }

  /** Reads one pixel back from its text form, with nothing after the last TAB. */
  function Parse(s: string): Option<Color> {
    match ParseFirst(s)
    case Some((c, rest)) => if rest == [] then Some(c) else None
    case None => None
  }

  lemma ByteField(n: nat)
    requires n < 256
    ensures IsByteField(Decimal(n)) && ParseDecimal(Decimal(n)) == n && '\t' !in Decimal(n)
  {
    DecimalOfByteWidth(n);
    DecimalDigits(n);
    DecimalRoundTrip(n);
    DecimalHasNoSeparator(n);
  }

  /** Three TAB-terminated byte fields parse as the pixel they spell. */
  lemma ParseFields(f0: string, f1: string, f2: string, rest: string)
    requires IsByteField(f0) && IsByteField(f1) && IsByteField(f2)
    requires '\t' !in f0 && '\t' !in f1 && '\t' !in f2
    ensures ParseFirst(f0 + "\t" + f1 + "\t" + f2 + "\t" + rest)
         == Some((Color(ParseDecimal(f0) as byte, ParseDecimal(f1) as byte, ParseDecimal(f2) as byte), rest))
  {
    var s2 := f2 + "\t" + rest;
    var s1 := f1 + "\t" + s2;
    assert f0 + "\t" + f1 + "\t" + f2 + "\t" + rest == f0 + "\t" + s1;
    TakeFieldAt(f0, '\t', s1);
    TakeFieldAt(f1, '\t', s2);
    TakeFieldAt(f2, '\t', rest);
  }

  /** The text form spelled out: each component in decimal, then a TAB. */
  lemma ToStringSpelled(c: Color)
    ensures c.ToString()
         == Decimal(c.r as nat) + "\t" + Decimal(c.g as nat) + "\t" + Decimal(c.b as nat) + "\t"
  {
    assert [c.b][1..] == [];
    assert Fields([c.b]) == Decimal(c.b as nat) + "\t";
    assert [c.g, c.b][1..] == [c.b];
    assert Fields([c.g, c.b]) == Decimal(c.g as nat) + "\t" + Fields([c.b]);
    assert [c.r, c.g, c.b][1..] == [c.g, c.b];
    assert Fields([c.r, c.g, c.b]) == Decimal(c.r as nat) + "\t" + Fields([c.g, c.b]);
  }

  /** Reading a colour off the front of its text form gives back the colour and the text after it. */
  lemma {:induction false} ParseFirstToString(c: Color, rest: string)
    ensures ParseFirst(c.ToString() + rest) == Some((c, rest))
  {
    var dr, dg, db := Decimal(c.r as nat), Decimal(c.g as nat), Decimal(c.b as nat);
    ToStringSpelled(c);
    ByteField(c.r as nat);
    ByteField(c.g as nat);
    ByteField(c.b as nat);
    ParseFields(dr, dg, db, rest);
  }

  /** Splitting the text form at its TABs and parsing each decimal field gives back the pixel. */
  lemma {:induction false} ToStringRoundTrip(c: Color)
    ensures Parse(c.ToString()) == Some(c)
  {
    ParseFirstToString(c, []);
    assert c.ToString() + [] == c.ToString();
  }
}
