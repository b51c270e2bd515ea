/**
 * The frame buffer: a width-by-height grid of pixels stored row by row, a
 * hook that lets the renderer fill it, and its output as a plain-text PPM
 * ("P3") image. The text is the value `PrintToFile` returns; writing it to
 * standard output is left to the caller.
 */
module Picture {
  import opened Wrappers
  import opened Text
  import opened Color

  const Black := Color(0, 0, 0)

  /** The three header lines: magic number, size, largest component value. */
  function Header(width: nat, height: nat): string {
    "P3" + "\n" + (Decimal(width) + " " + Decimal(height)) + "\n" + "255" + "\n"
  }

  /** The text forms of some pixels, one after another. */
  function Concat(cs: seq<Color>): string
  {
    if cs == [] then [] else cs[0].ToString() + Concat(cs[1..])
  }

  /** A row's text holds no newline, so it stays on one line. */
  lemma {:induction false} ConcatHasNoNewline(cs: seq<Color>)
    ensures '\n' !in Concat(cs)
    decreases |cs|
  {
    if cs != [] {
      ToStringShape(cs[0]);
      ConcatHasNoNewline(cs[1..]);
    }
  }

  lemma MulStep(j: nat, w: nat)
    ensures (j + 1) * w == j * w + w
  {
  }

  /** Row `j` of a pixel grid `width` wide; nothing for a row past the end of the grid. */
  function Row(cs: seq<Color>, width: nat, j: nat): (row: seq<Color>)
    ensures j * width + width <= |cs| ==> row == cs[j * width .. j * width + width]
  {
    var start := j * width;
    if start + width <= |cs| then cs[start .. start + width] else []
  }

  /** What has been printed once the header and the first `k` rows are out. */
  function Printed(cs: seq<Color>, width: nat, height: nat, k: nat): string
  {
    if k == 0 then Header(width, height)
    else
      Printed(cs, width, height, k - 1) + Concat(Row(cs, width, k - 1)) + "\n"
  }

  /** The whole PPM text of a `width` by `height` picture. */
  function Ppm(width: nat, height: nat, cs: seq<Color>): string
    requires |cs| == width * height
  {
    Printed(cs, width, height, height)
  }

  /** Row `j` of `h` rows lies inside the grid. */
  lemma RowFits(j: nat, w: nat, h: nat)
    requires j < h
    ensures (j + 1) * w == j * w + w <= w * h
  {
    MulStep(j, w);
    var d: nat := h - (j + 1);
    assert w * h == w * (j + 1) + w * d;
  }

  lemma {:induction false} ConcatSnoc(cs: seq<Color>, c: Color)
    ensures Concat(cs + [c]) == Concat(cs) + c.ToString()
    decreases |cs|
  {
    if cs == [] {
      assert [c][1..] == [];
    } else {
      var x := cs[0];
      assert (cs + [c])[0] == x;
      assert (cs + [c])[1..] == cs[1..] + [c];
      ConcatSnoc(cs[1..], c);
      calc {
        Concat(cs + [c]);
        x.ToString() + Concat(cs[1..] + [c]);
        x.ToString() + (Concat(cs[1..]) + c.ToString());
        (x.ToString() + Concat(cs[1..])) + c.ToString();
      }
    }
  }

  /** The row lines of the first `k` rows, top to bottom. */
  function RowTexts(cs: seq<Color>, width: nat, k: nat): (rows: seq<string>)
    ensures |rows| == k
  {
    if k == 0 then []
    else
      RowTexts(cs, width, k - 1) + [Concat(Row(cs, width, k - 1))]
  }

  /** Reads the size line: two decimal numbers separated by a space. */
  function ParseSize(line: string): Option<(nat, nat)> {
    match TakeField(line, ' ')
    case None => None
    case Some((w, h)) =>
      if w != [] && h != [] && AllDigits(w) && AllDigits(h)
      then Some((ParseDecimal(w), ParseDecimal(h)))
      else None
  }

  /** Reads exactly `n` pixels, and nothing else, from a line. */
  function ParseColors(s: string, n: nat): (r: Option<seq<Color>>)
    ensures r.Some? ==> |r.value| == n
    decreases n
  {
    if n == 0 then (if s == [] then Some([]) else None)
    else match ParseFirst(s)
      case None => None
      case Some((c, rest)) =>
        match ParseColors(rest, n - 1)
        case None => None
        case Some(cs) => Some([c] + cs)
  }

  /** Reads row lines of `width` pixels each and joins them top to bottom. */
  function ParseRows(rows: seq<string>, width: nat): Option<seq<Color>>
    decreases |rows|
  {
    if rows == [] then Some([])
    else match ParseRows(rows[..|rows| - 1], width)
      case None => None
      case Some(cs) =>
        match ParseColors(rows[|rows| - 1], width)
        case None => None
        case Some(row) => Some(cs + row)
  }

  /** Reads a PPM text back: its width, its height and its pixels row by row. */
  function ParsePpm(s: string): Option<(nat, nat, seq<Color>)> {
    var lines := Lines(s);
    if |lines| < 3 || lines[0] != "P3" || lines[2] != "255" then None
    else match ParseSize(lines[1])
      case None => None
      case Some((w, h)) =>
        if |lines| != 3 + h then None
        else match ParseRows(lines[3..], w)
          case None => None
          case Some(cs) => Some((w, h, cs))
  }

  /** The size line reads back as the width and the height. */
  lemma ParseSizeOf(width: nat, height: nat)
    ensures ParseSize(Decimal(width) + " " + Decimal(height)) == Some((width, height))
  {
    DecimalHasNoSeparator(width);
    TakeFieldAt(Decimal(width), ' ', Decimal(height));
    DecimalDigits(width);
    DecimalDigits(height);
    DecimalRoundTrip(width);
    DecimalRoundTrip(height);
  }

  /** A row's text reads back as exactly that row. */
  lemma {:induction false} ParseConcat(cs: seq<Color>)
    ensures ParseColors(Concat(cs), |cs|) == Some(cs)
    decreases |cs|
  {
    if cs != [] {
      var text := Concat(cs);
      assert ParseFirst(text) == Some((cs[0], Concat(cs[1..]))) by {
        ParseFirstToString(cs[0], Concat(cs[1..]));
      }
      assert ParseColors(Concat(cs[1..]), |cs| - 1) == Some(cs[1..]) by {
        ParseConcat(cs[1..]);
      }
      assert [cs[0]] + cs[1..] == cs;
    }
  }

  /** One more row line adds that line's pixels after the others. */
  lemma ParseRowsSnoc(rows: seq<string>, line: string, width: nat, before: seq<Color>, row: seq<Color>)
    requires ParseRows(rows, width) == Some(before)
    requires ParseColors(line, width) == Some(row)
    ensures ParseRows(rows + [line], width) == Some(before + row)
  {
    assert (rows + [line])[..|rows|] == rows;
  }

  /** The row lines of the first `k` rows: those of the first `k - 1`, then row `k - 1`. */
  lemma RowTextsSnoc(cs: seq<Color>, width: nat, k: nat, a: nat, b: nat)
    requires 0 < k && a == (k - 1) * width && b == a + width <= |cs|
    ensures RowTexts(cs, width, k) == RowTexts(cs, width, k - 1) + [Concat(cs[a..b])]
  {
  }

  /** Row `k - 1`'s line, after the lines of the rows before it, adds that row's pixels. */
  lemma ParseRowTextsStep(cs: seq<Color>, width: nat, k: nat, a: nat, b: nat)
    requires 0 < k && a == (k - 1) * width && b == a + width <= |cs|
    requires ParseRows(RowTexts(cs, width, k - 1), width) == Some(cs[..a])
    ensures ParseRows(RowTexts(cs, width, k), width) == Some(cs[..b])
  {
    var row := cs[a..b];
    assert |row| == width && cs[..a] + row == cs[..b];
    assert ParseRows(RowTexts(cs, width, k - 1) + [Concat(row)], width) == Some(cs[..a] + row) by {
      ParseConcat(row);
      ParseRowsSnoc(RowTexts(cs, width, k - 1), Concat(row), width, cs[..a], row);
    }
    RowTextsSnoc(cs, width, k, a, b);
  }

  /** The row lines of the first `k` rows read back as the first `k * width` pixels. */
  lemma {:induction false} ParseRowTexts(cs: seq<Color>, width: nat, k: nat)
    requires k * width <= |cs|
    ensures ParseRows(RowTexts(cs, width, k), width) == Some(cs[..k * width])
  {
    if k > 0 {
      MulStep(k - 1, width);
      ParseRowTexts(cs, width, k - 1);
      ParseRowTextsStep(cs, width, k, (k - 1) * width, k * width);
    }
  }

  /** The header is three whole lines. */
  lemma LinesOfHeader(width: nat, height: nat)
    ensures WholeLines(Header(width, height))
    ensures Lines(Header(width, height)) == ["P3", Decimal(width) + " " + Decimal(height), "255"]
  {
    var size := Decimal(width) + " " + Decimal(height);
    DecimalHasNoSeparator(width);
    DecimalHasNoSeparator(height);
    ThreeLines("P3", size, "255");
  }

  /**
   * The printed text so far is whole lines: the three header lines, then
   * one line per row printed.
   */
  lemma {:induction false} LinesOfPrinted(cs: seq<Color>, width: nat, height: nat, k: nat)
    requires k * width <= |cs|
    ensures WholeLines(Printed(cs, width, height, k))
    ensures Lines(Printed(cs, width, height, k))
         == ["P3", Decimal(width) + " " + Decimal(height), "255"] + RowTexts(cs, width, k)
  {
    if k == 0 {
      LinesOfHeader(width, height);
    } else {
      MulStep(k - 1, width);
      var before := Printed(cs, width, height, k - 1);
      var row := Concat(Row(cs, width, k - 1));
      assert Printed(cs, width, height, k) == before + row + "\n";
      assert RowTexts(cs, width, k) == RowTexts(cs, width, k - 1) + [row];
      LinesOfPrinted(cs, width, height, k - 1);
      ConcatHasNoNewline(Row(cs, width, k - 1));
      LinesSnoc(before, row);
    }
  }

  /**
   * Reading the printed picture back gives its width, its height and every
   * pixel in row-major order.
   */
  lemma PpmRoundTrip(width: nat, height: nat, cs: seq<Color>)
    requires |cs| == width * height
    ensures ParsePpm(Ppm(width, height, cs)) == Some((width, height, cs))
  {
    var size := Decimal(width) + " " + Decimal(height);
    var lines := Lines(Ppm(width, height, cs));
    assert lines == ["P3", size, "255"] + RowTexts(cs, width, height) by {
      assert height * width == width * height;
      LinesOfPrinted(cs, width, height, height);
    }
    assert ParseSize(lines[1]) == Some((width, height)) by {
      ParseSizeOf(width, height);
    }
    assert ParseRows(lines[3..], width) == Some(cs) by {
      assert lines[3..] == RowTexts(cs, width, height);
      assert height * width == width * height;
      ParseRowTexts(cs, width, height);
      assert cs[..height * width] == cs;
    }
  }


  class Picture {
    const width: nat
    const height: nat
    /** The buffer is fixed once made; only its pixels change. */
    const colors: array<Color>

    /** Pixel (i, j) lives at `colors[j * width + i]`. */
    ghost predicate Valid() {
      colors.Length == width * height
    }

    /** `Picture::new`: an all-black grid of `width * height` pixels. */
    constructor(width: nat, height: nat)
      ensures Valid() && fresh(colors)
      ensures this.width == width && this.height == height
      ensures colors[..] == seq(width * height, _ => Black)
    {
      this.width := width;
      this.height := height;
      colors := new Color[width * height](_ => Black);
    }

    /**
     * `Picture::mutate`: hands the pixels and the size to `mutator`, whose
     * result becomes the new contents. A Rust slice cannot change length, so
     * neither may the result here.
     */
    method Mutate(mutator: (seq<Color>, nat, nat) -> seq<Color>)
      requires Valid()
      requires |mutator(colors[..], width, height)| == colors.Length
      modifies colors
      ensures Valid()
      ensures colors[..] == mutator(old(colors[..]), width, height)
    {
      var next := mutator(colors[..], width, height);
      forall i | 0 <= i < colors.Length {
        colors[i] := next[i];
      }
    }

    /** The text of the `count` pixels starting at `start`, left to right. */
    method RowText(start: nat, count: nat) returns (line: string)
      requires start + count <= colors.Length
      ensures line == Concat(colors[start .. start + count])
    {
      ghost var cs := colors[..];
      line := [];
      for i := 0 to count
        invariant line == Concat(cs[start .. start + i])
      {
        var c := colors[start + i];
        ConcatSnoc(cs[start .. start + i], c);
        assert cs[start .. start + i + 1] == cs[start .. start + i] + [c];
        line := line + c.ToString();
      }
    }

    /** `Picture::print_to_file`: the header, then one line per row, top to bottom. */
    method PrintToFile() returns (out: string)
      requires Valid()
      ensures out == Ppm(width, height, colors[..])
    {
      out := "P3" + "\n";
      out := out + (Decimal(width) + " " + Decimal(height)) + "\n";
      out := out + "255" + "\n";
      ghost var cs := colors[..];
      var start := 0;
      for j := 0 to height
        invariant start == j * width <= |cs|
        invariant out == Printed(cs, width, height, j)
      {
        RowFits(j, width, height);
        var line := RowText(start, width);
        out := out + line + "\n";
        start := start + width;
      }
    }
  }
}
