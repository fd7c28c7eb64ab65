// tools/png_to_bmp.py: turns an image into the text of a C array, one cell per pixel, 0 for a
// fully transparent pixel and 1 for any other. The colour channels play no part. Decoding the
// PNG file is Pillow's work; the model takes the decoded image.

module PngToBitmap {
  import CLib
  import PyText

  /** One RGBA pixel, as `pixels[x, y]` gives it after `convert("RGBA")`. */
  datatype Pixel = Pixel(r: int, g: int, b: int, a: int)

  /** A decoded image: its size and its pixels, row `y` at `pixels[y]`. */
  datatype Image = Image(width: nat, height: nat, pixels: seq<seq<Pixel>>)

  predicate WellSized(img: Image)
  {
    |img.pixels| == img.height && forall y :: 0 <= y < img.height ==> |img.pixels[y]| == img.width
  }

  /** The cell text of one pixel. */
  function CellText(p: Pixel): (t: seq<char>)
    ensures |t| == 1 && (t == "0" || t == "1")
    ensures t == "0" <==> p.a == 0
  {
    if p.a == 0 then "0" else "1"
  }

  function RowCells(row: seq<Pixel>): seq<seq<char>>
  {
    seq(|row|, x requires 0 <= x < |row| => CellText(row[x]))
  }

  /** The line of one row of pixels. */
  function RowText(row: seq<Pixel>): seq<char>
  {
    "    { " + PyText.Join(", ", RowCells(row)) + " },\n"
  }

  /** The lines of the rows, top row first. */
  function RowsText(rows: seq<seq<Pixel>>): seq<char>
  {
    if rows == [] then [] else RowsText(rows[..|rows| - 1]) + RowText(rows[|rows| - 1])
  }

  /** The declaration line, with the height as the outer dimension. */
  function Header(name: seq<char>, height: nat, width: nat): seq<char>
  {
    "const unsigned char " + name + "[" + CLib.Decimal(height) + "][" + CLib.Decimal(width) + "] = {\n"
  }

  /** The whole text `png_to_c_bitmap` returns. */
  function Bitmap(name: seq<char>, img: Image): seq<char>
  {
    Header(name, img.height, img.width) + RowsText(img.pixels) + "};\n"
  }

  /** `png_to_c_bitmap(filename, array_name)` on the decoded image: the header, then one line per
    * row built cell by cell, then the closing line. */
  method PngToCBitmap(img: Image, arrayName: seq<char>) returns (cArray: seq<char>)
    requires WellSized(img)
    ensures cArray == Bitmap(arrayName, img)
  {
    var width, height := img.width, img.height;
    cArray := Header(arrayName, height, width);
    for y := 0 to height
      invariant cArray == Header(arrayName, height, width) + RowsText(img.pixels[..y])
    {
      ghost var before := cArray;
      cArray := cArray + "    { ";
      var row := BuildRow(img.pixels[y]);
      cArray := cArray + PyText.Join(", ", row) + " },\n";
      RowsTextStep(img.pixels, y, Header(arrayName, height, width), before, row);
    }
    assert img.pixels[..height] == img.pixels;
    cArray := cArray + "};\n";
  }

  /** The inner loop: the cells of one row, left to right. */
  method BuildRow(pixels: seq<Pixel>) returns (row: seq<seq<char>>)
    ensures row == RowCells(pixels)
  {
    row := [];
    for x := 0 to |pixels|
      invariant row == RowCells(pixels[..x])
    {
      var p := pixels[x];
      RowCellsStep(pixels, x);
      if p.a == 0 {
        row := row + ["0"];
      } else {
        row := row + ["1"];
      }
    }
    assert pixels[..|pixels|] == pixels;
  }

  lemma RowCellsStep(row: seq<Pixel>, x: nat)
    requires x < |row|
    ensures RowCells(row[..x + 1]) == RowCells(row[..x]) + [CellText(row[x])]
  {
  }

  /** One turn of the outer loop adds the line of row `y`. */
  lemma RowsTextStep(rows: seq<seq<Pixel>>, y: nat, header: seq<char>, before: seq<char>, cells: seq<seq<char>>)
    requires y < |rows| && cells == RowCells(rows[y]) && before == header + RowsText(rows[..y])
    ensures before + "    { " + PyText.Join(", ", cells) + " },\n" == header + RowsText(rows[..y + 1])
  {
    assert rows[..y + 1][..y] == rows[..y];
    assert RowsText(rows[..y + 1]) == RowsText(rows[..y]) + RowText(rows[y]);
  }

  // ---------------------------------------------------------------------------------------
  // Reading the text back

  /** Which pixels of a row are drawn: those not fully transparent. */
  function Mask(row: seq<Pixel>): seq<bool>
  {
    seq(|row|, x requires 0 <= x < |row| => row[x].a != 0)
  }

  /** The cells of a `", "`-separated list of one-character cells: every third character. */
  function ReadCells(t: seq<char>): (m: seq<bool>)
    ensures |m| == (|t| + 2) / 3
  {
    seq((|t| + 2) / 3, k requires 0 <= k < (|t| + 2) / 3 => t[3 * k] == '1')
  }

  /** The cells of a row line: the text between `"    { "` and `" },\n"`. */
  function ReadRow(line: seq<char>): seq<bool>
  {
    if |line| < 10 then [] else ReadCells(line[6..|line| - 4])
  }

  /** The length of the line of a row of `width` pixels. */
  function RowLength(width: nat): (n: nat)
    ensures n >= 10
  {
    if width == 0 then 10 else 3 * width + 8
  }

  /** The row lines at the end of `t`, `count` of them, each `len` long. */
  function ReadRows(t: seq<char>, len: nat, count: nat): (rows: seq<seq<bool>>)
    ensures |rows| == count
    decreases count
  {
    if count == 0 || |t| < len then seq(count, _ => [])
    else ReadRows(t[..|t| - len], len, count - 1) + [ReadRow(t[|t| - len..])]
  }

  /** A `", "`-joined list of one-character cells is `3n - 2` long and has cell `k` at `3k`. */
  lemma {:induction false} JoinedCells(cells: seq<seq<char>>)
    requires forall i :: 0 <= i < |cells| ==> |cells[i]| == 1
    ensures var t := PyText.Join(", ", cells);
      |t| == (if cells == [] then 0 else 3 * |cells| - 2) &&
      forall k :: 0 <= k < |cells| ==> t[3 * k] == cells[k][0]
  {
    if |cells| > 1 {
      JoinedCells(cells[1..]);
      var t, rest := PyText.Join(", ", cells), PyText.Join(", ", cells[1..]);
      assert t == cells[0] + ", " + rest;
      forall k | 1 <= k < |cells|
        ensures t[3 * k] == cells[k][0]
      {
        assert t[3 * k] == rest[3 * (k - 1)];
      }
    }
  }

  /** Reading a row line gives back which pixels of the row are drawn. */
  lemma ReadRowText(row: seq<Pixel>)
    ensures |RowText(row)| == RowLength(|row|)
    ensures ReadRow(RowText(row)) == Mask(row)
  {
    var cells := RowCells(row);
    var j := PyText.Join(", ", cells);
    JoinedCells(cells);
    var line := RowText(row);
    assert line[6..|line| - 4] == j;
    forall k | 0 <= k < |row|
      ensures ReadCells(j)[k] == Mask(row)[k]
    {
      assert j[3 * k] == cells[k][0];
    }
  }

  /** Reading the row lines back, from the end, gives the drawn pixels of every row. */
  lemma {:induction false} ReadRowsText(rows: seq<seq<Pixel>>, width: nat)
    requires forall y :: 0 <= y < |rows| ==> |rows[y]| == width
    ensures |RowsText(rows)| == |rows| * RowLength(width)
    ensures ReadRows(RowsText(rows), RowLength(width), |rows|) == seq(|rows|, y requires 0 <= y < |rows| => Mask(rows[y]))
  {
    if rows != [] {
      var n := |rows|;
      var front := rows[..n - 1];
      ReadRowsText(front, width);
      ReadRowText(rows[n - 1]);
      var t := RowsText(rows);
      MulSucc(n, RowLength(width));
      assert t[..|t| - RowLength(width)] == RowsText(front);
      assert t[|t| - RowLength(width)..] == RowText(rows[n - 1]);
    }
  }

  lemma MulSucc(n: nat, m: nat)
    requires n >= 1
    ensures n * m == (n - 1) * m + m
  {
  }

  /** The text `png_to_c_bitmap` returns opens with the declaration, closes with `"};\n"`, and
    * between them holds one line per row from which the drawn pixels read back. */
  lemma BitmapReadsBack(name: seq<char>, img: Image)
    requires WellSized(img)
    ensures var t, h := Bitmap(name, img), Header(name, img.height, img.width);
      |t| == |h| + img.height * RowLength(img.width) + 3 && t[..|h|] == h && t[|t| - 3..] == "};\n" &&
      ReadRows(t[|h|..|t| - 3], RowLength(img.width), img.height)
        == seq(img.height, y requires 0 <= y < img.height => Mask(img.pixels[y]))
  {
    ReadRowsText(img.pixels, img.width);
    var t, h := Bitmap(name, img), Header(name, img.height, img.width);
    assert t[|h|..|t| - 3] == RowsText(img.pixels);
  }

  // ---------------------------------------------------------------------------------------
  // The command line

  /** What the script writes to standard output, and its exit status. */
  datatype Outcome = Outcome(stdout: seq<char>, exitCode: int)

  const Usage: seq<char> := "Usage: python png_to_c_bitmap.py input.png [array_name]"

  /** The script run with `argv`, `img` being the image Pillow decodes from `argv[1]`: without
    * a file name it prints the usage and exits with 1; otherwise it prints the array, named
    * after `argv[2]` or else `bitmap`. */
  method Run(argv: seq<seq<char>>, img: Image) returns (o: Outcome)
    requires WellSized(img)
    ensures o.exitCode == 1 <==> |argv| < 2
    ensures |argv| < 2 ==> o.stdout == Usage + "\n"
    ensures |argv| == 2 ==> o.stdout == Bitmap("bitmap", img) + "\n" && o.exitCode == 0
    ensures |argv| > 2 ==> o.stdout == Bitmap(argv[2], img) + "\n" && o.exitCode == 0
  {
    if |argv| < 2 {
      return Outcome(Usage + "\n", 1);
    }
    var arrayName := if |argv| > 2 then argv[2] else "bitmap";
    var result := PngToCBitmap(img, arrayName);
    o := Outcome(result + "\n", 0);
  }
}
