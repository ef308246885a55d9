/** Netpbm files: the writers (tools/vng-scenarios/render-root-source-client.c, `write_ppm`;
    crates/yserver/src/kms/render/backend/portable/dump.rs, the PAM of a drawable) and the reader
    that undoes them (tools/ppm-regions.py). A byte is a character below 256. */
module Netpbm {
  import opened Text

  // ------------------------------------------------------- numbers

  function Digit(n: nat): char
    requires n < 10
  {
    ('0' as int + n) as char
  }

  predicate IsDigit(c: char) { '0' <= c <= '9' }

  /** `%d` of a size. */
  function Decimal(n: nat): (s: string)
    ensures s != "" && (s[0] == '0' ==> n == 0 && s == "0") && forall i :: 0 <= i < |s| ==> '0' <= s[i] <= '9'
  {
    if n < 10 then [Digit(n)] else Decimal(n / 10) + [Digit(n % 10)]
  }

  datatype Number = NotANumber | Number(value: int)

  /** Decimal digits, with single underscores between them. */
  function ParseDigits(s: string): (r: Number)
    ensures r.Number? ==> r.value >= 0
  {
    if s == "" || !IsDigit(s[|s| - 1]) then NotANumber
    else
      var d, front := s[|s| - 1] as int - '0' as int, s[..|s| - 1];
      if front == "" then Number(d)
      else
        match ParseDigits(if front[|front| - 1] == '_' then front[..|front| - 1] else front)
        case NotANumber => NotANumber
        case Number(v) => Number(v * 10 + d)
  }

  /** `int()` of a field: an optional sign and digits. */
  function ParseInt(s: string): Number {
    if s != "" && s[0] == '-' then
      match ParseDigits(s[1..])
      case NotANumber => NotANumber
      case Number(v) => Number(-v)
    else ParseDigits(if s != "" && s[0] == '+' then s[1..] else s)
  }

  /** What `int()` takes for a number: digits, with single underscores between them. */
  lemma NumberIff(s: string)
    ensures ParseDigits(s).Number? <==>
        && s != "" && '0' <= s[0] <= '9' && '0' <= s[|s| - 1] <= '9'
        && (forall i :: 0 <= i < |s| ==> '0' <= s[i] <= '9' || s[i] == '_')
        && (forall i :: 0 < i < |s| ==> s[i] == '_' ==> s[i - 1] != '_')
  {
    NumberTextIff(s);
  }

  lemma {:induction false} NumberTextIff(s: string)
    ensures ParseDigits(s).Number? <==> NumberText(s)
    decreases |s|
  {
    if s != "" && IsDigit(s[|s| - 1]) && |s| > 1 {
      DigitLast(s);
      hide ParseDigits, NumberText;
      if s[|s| - 2] == '_' {
        NumberTextIff(s[..|s| - 2]);
        AfterUnderscore(s);
      } else {
        NumberTextIff(s[..|s| - 1]);
        AfterOther(s);
      }
    }
  }

  lemma DigitLast(s: string)
    requires |s| > 1 && IsDigit(s[|s| - 1])
    ensures ParseDigits(s).Number? <==>
        ParseDigits(if s[|s| - 2] == '_' then s[..|s| - 2] else s[..|s| - 1]).Number?
  {
    var front := s[..|s| - 1];
    assert front[..|front| - 1] == s[..|s| - 2];
  }

  ghost predicate NumberText(s: string) {
    && s != "" && '0' <= s[0] <= '9' && '0' <= s[|s| - 1] <= '9'
    && (forall i :: 0 <= i < |s| ==> '0' <= s[i] <= '9' || s[i] == '_')
    && (forall i :: 0 < i < |s| ==> s[i] == '_' ==> s[i - 1] != '_')
  }

  lemma AfterUnderscore(s: string)
    requires |s| > 1 && IsDigit(s[|s| - 1]) && s[|s| - 2] == '_'
    ensures NumberText(s) <==> NumberText(s[..|s| - 2])
  {
    var n, front := |s| - 2, s[..|s| - 2];
    assert forall i :: 0 <= i < n ==> front[i] == s[i];
    if NumberText(front) {
      forall i | 0 < i < |s| && s[i] == '_' ensures s[i - 1] != '_' {
        if i < n { assert front[i] == '_'; } else { assert i == n && s[n - 1] == front[n - 1]; }
      }
    }
    if NumberText(s) {
      assert n > 0 && s[n - 1] != '_' && s[n - 1] == front[n - 1];
    }
  }

  lemma AfterOther(s: string)
    requires |s| > 1 && IsDigit(s[|s| - 1]) && s[|s| - 2] != '_'
    ensures NumberText(s) <==> NumberText(s[..|s| - 1])
  {
    var n, front := |s| - 1, s[..|s| - 1];
    assert forall i :: 0 <= i < n ==> front[i] == s[i];
    if NumberText(s) { assert front[n - 1] == s[n - 1]; }
    if NumberText(front) {
      forall i | 0 < i < |s| && s[i] == '_' ensures s[i - 1] != '_' { assert front[i] == '_'; }
    }
  }

  /** A digit more is ten times the number and the digit, with an underscore before it or without. */
  lemma DigitAdded(s: string, d: nat)
    requires d < 10
    ensures ParseDigits([['0', '1', '2', '3', '4', '5', '6', '7', '8', '9'][d]]) == Number(d)
    ensures ParseDigits(s).Number? ==>
        var more := [['0', '1', '2', '3', '4', '5', '6', '7', '8', '9'][d]];
        ParseDigits(s + more) == ParseDigits(s + "_" + more) == Number(10 * ParseDigits(s).value + d)
  {
    var c := ['0', '1', '2', '3', '4', '5', '6', '7', '8', '9'][d];
    assert c as int == '0' as int + d;
    if ParseDigits(s).Number? {
      assert (s + [c])[..|s|] == s && (s + "_" + [c])[..|s| + 1] == s + "_" && (s + "_")[..|s|] == s;
    }
  }

  /** `int()`: a sign, or none, in front of that. */
  lemma SignedIs(s: string)
    ensures ParseInt("+" + s) == ParseDigits(s)
    ensures s == "" || (s[0] != '+' && s[0] != '-') ==> ParseInt(s) == ParseDigits(s)
    ensures ParseInt("-" + s)
         == if ParseDigits(s).Number? then Number(0 - ParseDigits(s).value) else NotANumber
  {
    Plus(s);
    Minus(s);
  }

  lemma Plus(s: string)
    ensures ParseInt("+" + s) == ParseDigits(s)
  {
    hide ParseDigits;
    var t := "+" + s;
    assert t[0] == '+' && t[1..] == s;
  }

  lemma Minus(s: string)
    ensures ParseInt("-" + s) == if ParseDigits(s).Number? then Number(0 - ParseDigits(s).value) else NotANumber
  {
    hide ParseDigits;
    var t := "-" + s;
    assert t[0] == '-' && t[1..] == s;
  }

  lemma {:induction false} DigitsDecimal(n: nat)
    ensures ParseDigits(Decimal(n)) == Number(n)
  {
    if n >= 10 {
      DigitsDecimal(n / 10);
      var s := Decimal(n);
      assert s[..|s| - 1] == Decimal(n / 10) && s[|s| - 1] == Digit(n % 10);
    }
  }

  /** A printed size reads back, also with a sign in front. */
  lemma ParseDecimal(n: nat)
    ensures ParseInt(Decimal(n)) == Number(n)
    ensures ParseInt("+" + Decimal(n)) == Number(n) && ParseInt("-" + Decimal(n)) == Number(0 - n)
  {
    hide Decimal, ParseDigits;
    DigitsDecimal(n);
    assert IsDigit(Decimal(n)[0]);
    assert ("+" + Decimal(n))[1..] == Decimal(n) == ("-" + Decimal(n))[1..];
  }

  // ------------------------------------------------------- pictures

  /** Rows of 24-bit pixels, all of one width. */
  datatype Picture = Picture(width: nat, rows: seq<seq<nat>>) {
    predicate Valid() {
      forall y :: 0 <= y < |rows| ==> |rows[y]| == width
    }
  }

  function Byte(v: nat): char { (v % 256) as char }

  function Rgb(p: nat): (s: string)
    ensures |s| == 3 && s[0] as int == p / 0x1_0000 % 0x100 && s[1] as int == p / 0x100 % 0x100
        && s[2] as int == p % 0x100
  {
    [Byte(p / 65536), Byte(p / 256), Byte(p)]
  }

  function RowBytes(row: seq<nat>): (s: string)
    ensures |s| == |row| * 3
  {
    if row == [] then "" else RowBytes(row[..|row| - 1]) + Rgb(row[|row| - 1])
  }

  function BodyBytes(rows: seq<seq<nat>>): string {
    if rows == [] then "" else BodyBytes(rows[..|rows| - 1]) + RowBytes(rows[|rows| - 1])
  }

  lemma {:induction false} BodySize(rows: seq<seq<nat>>, width: nat)
    requires forall y :: 0 <= y < |rows| ==> |rows[y]| == width
    ensures |BodyBytes(rows)| == |rows| * width * 3
  {
    if rows != [] {
      hide RowBytes;
      BodySize(rows[..|rows| - 1], width);
      OneMoreRow(|rows|, width);
    }
  }

  lemma OneMoreRow(n: nat, width: nat)
    requires n > 0
    ensures (n - 1) * width * 3 + width * 3 == n * width * 3
  {
  }

  lemma {:induction false} RowPixel(row: seq<nat>, x: nat)
    requires x < |row|
    ensures RowBytes(row)[x * 3..x * 3 + 3] == Rgb(row[x])
  {
    var front := row[..|row| - 1];
    if x < |row| - 1 {
      RowPixel(front, x);
      assert RowBytes(row)[x * 3..x * 3 + 3] == RowBytes(front)[x * 3..x * 3 + 3];
    }
  }

  /** The bytes of row y stand after those of the rows above it. */
  lemma {:induction false} BodyRow(rows: seq<seq<nat>>, y: nat)
    requires y < |rows|
    ensures var n := |BodyBytes(rows[..y])|;
      n + |RowBytes(rows[y])| <= |BodyBytes(rows)| && BodyBytes(rows)[n..n + |RowBytes(rows[y])|] == RowBytes(rows[y])
  {
    var front := rows[..|rows| - 1];
    if y < |rows| - 1 {
      BodyRow(front, y);
      assert front[..y] == rows[..y] && front[y] == rows[y];
      var n, m := |BodyBytes(rows[..y])|, |RowBytes(rows[y])|;
      assert BodyBytes(rows)[n..n + m] == BodyBytes(front)[n..n + m];
    }
  }

  /** `pixel` on the body finds the picture's pixel: nothing is moved or swapped. */
  lemma BodyPixel(rows: seq<seq<nat>>, width: nat, x: nat, y: nat)
    requires (forall k :: 0 <= k < |rows| ==> |rows[k]| == width) && x < width && y < |rows|
    ensures var i := (y * width + x) * 3; i + 3 <= |BodyBytes(rows)| && BodyBytes(rows)[i..i + 3] == Rgb(rows[y][x])
  {
    hide BodyBytes, RowBytes, Rgb;
    var n := |BodyBytes(rows[..y])|;
    BodySize(rows[..y], width);
    BodyRow(rows, y);
    RowPixel(rows[y], x);
    PixelOffset(width, x, y);
    SubSlice(BodyBytes(rows), n, n + |RowBytes(rows[y])|, x * 3, x * 3 + 3);
  }

  lemma SubSlice(s: string, n: nat, m: nat, a: nat, b: nat)
    requires n <= m <= |s| && a <= b <= m - n
    ensures s[n..m][a..b] == s[n + a..n + b]
  {
    var t := s[n..m];
    assert forall i :: 0 <= i < b - a ==> t[a..b][i] == t[a + i] == s[n + a + i];
  }

  lemma PixelOffset(width: nat, x: nat, y: nat)
    ensures (y * width + x) * 3 == y * width * 3 + x * 3
  {
  }

  // ------------------------------------------------------- writing

  function PpmHeader(width: nat, height: nat): string {
    "P6\n" + Decimal(width) + " " + Decimal(height) + "\n255\n"
  }

  /** `write_ppm`: a header, then three bytes a pixel in nested row and column loops. */
  method WritePpm(img: Picture) returns (data: string)
    requires img.Valid()
    ensures data == PpmHeader(img.width, |img.rows|) + BodyBytes(img.rows)
    ensures var head := "P6\n" + Decimal(img.width) + " " + Decimal(|img.rows|) + "\n255\n";
      && |data| == |head| + 3 * img.width * |img.rows| && head <= data
      && forall x, y :: 0 <= x < img.width && 0 <= y < |img.rows| ==>
           BytesAt(data, |head| + 3 * (img.width * y + x), img.rows[y][x])
  {
    var body := "";
    for y := 0 to |img.rows|
      invariant body == BodyBytes(img.rows[..y])
    {
      var row := img.rows[y];
      for x := 0 to img.width
        invariant body == BodyBytes(img.rows[..y]) + RowBytes(row[..x])
      {
        assert row[..x + 1][..x] == row[..x];
        body := body + [Byte(row[x] / 65536)];
        body := body + [Byte(row[x] / 256)];
        body := body + [Byte(row[x])];
      }
      assert row[..img.width] == row && img.rows[..y + 1][..y] == img.rows[..y];
    }
    assert img.rows[..|img.rows|] == img.rows;
    data := PpmHeader(img.width, |img.rows|) + body;
    Written(img);
  }

  /** From `at` on stand the red, the green and the blue byte of a pixel. */
  ghost predicate BytesAt(d: string, at: int, p: nat) {
    && 0 <= at && at + 3 <= |d|
    && d[at] as int == p / 0x1_0000 % 0x100 && d[at + 1] as int == p / 0x100 % 0x100 && d[at + 2] as int == p % 0x100
  }

  lemma Written(img: Picture)
    requires img.Valid()
    ensures var head := "P6\n" + Decimal(img.width) + " " + Decimal(|img.rows|) + "\n255\n";
      var data := PpmHeader(img.width, |img.rows|) + BodyBytes(img.rows);
      && |data| == |head| + 3 * img.width * |img.rows| && head <= data
      && forall x, y :: 0 <= x < img.width && 0 <= y < |img.rows| ==>
           BytesAt(data, |head| + 3 * (img.width * y + x), img.rows[y][x])
  {
    hide BodyBytes, Decimal, BytesAt, Rgb;
    var head := "P6\n" + Decimal(img.width) + " " + Decimal(|img.rows|) + "\n255\n";
    var body := BodyBytes(img.rows);
    assert PpmHeader(img.width, |img.rows|) == head;
    BodySize(img.rows, img.width);
    SwapSides(img.width, |img.rows|);
    forall x, y | 0 <= x < img.width && 0 <= y < |img.rows|
      ensures BytesAt(head + body, |head| + 3 * (img.width * y + x), img.rows[y][x]) {
      WrittenAt(img, head, x, y);
    }
  }

  lemma WrittenAt(img: Picture, head: string, x: nat, y: nat)
    requires img.Valid() && x < img.width && y < |img.rows|
    ensures BytesAt(head + BodyBytes(img.rows), |head| + 3 * (img.width * y + x), img.rows[y][x])
  {
    hide BodyBytes, BytesAt, Rgb;
    BodyPixel(img.rows, img.width, x, y);
    SwapOffset(img.width, x, y);
    PlacedBytes(head, BodyBytes(img.rows), 3 * (img.width * y + x), img.rows[y][x]);
  }

  lemma SwapOffset(w: nat, x: int, y: int)
    ensures (y * w + x) * 3 == 3 * (w * y + x)
  {
  }

  lemma PlacedBytes(head: string, body: string, i: int, p: nat)
    requires 0 <= i && i + 3 <= |body| && body[i..i + 3] == Rgb(p)
    ensures BytesAt(head + body, |head| + i, p)
  {
    var s := body[i..i + 3];
    assert s[0] == body[i] && s[1] == body[i + 1] && s[2] == body[i + 2];
  }

  // ------------------------------------------------------- reading a PPM

  function SpaceEnd(d: string, o: nat): (e: nat)
    requires o <= |d|
    ensures o <= e <= |d|
    decreases |d| - o
  {
    if o < |d| && Space(d[o]) then SpaceEnd(d, o + 1) else o
  }

  function TokenEnd(d: string, o: nat): (e: nat)
    requires o <= |d|
    ensures o <= e <= |d|
    decreases |d| - o
  {
    if o < |d| && !Space(d[o]) then TokenEnd(d, o + 1) else o
  }

  function LineEnd(d: string, o: nat): (e: nat)
    requires o <= |d|
    ensures o <= e <= |d|
    decreases |d| - o
  {
    if o < |d| && d[o] != '\n' then LineEnd(d, o + 1) else o
  }

  /** The next header field from `o` on, comments skipped: where it starts and ends. */
  function Field(d: string, o: nat): (r: (nat, nat))
    requires o <= |d|
    ensures r.0 <= r.1 <= |d|
    decreases |d| - o
  {
    var s := SpaceEnd(d, o);
    if s < |d| && d[s] == '#' then Field(d, LineEnd(d, s)) else (s, TokenEnd(d, s))
  }

  datatype Read = NotP6 | BadNumber | BadPam | Truncated | Image(width: int, height: int, body: string)

  /** The loop that collects one field. */
  method NextField(d: string, o: nat) returns (field: string, offset: nat)
    requires o <= |d|
    ensures offset == Field(d, o).1 && field == d[Field(d, o).0..offset]
  {
    offset := o;
    while true
      invariant offset <= |d| && Field(d, offset) == Field(d, o)
      decreases |d| - offset
    {
      ghost var before := offset;
      while offset < |d| && Space(d[offset])
        invariant before <= offset <= |d| && SpaceEnd(d, before) == SpaceEnd(d, offset)
      {
        offset := offset + 1;
      }
      if offset < |d| && d[offset] == '#' {
        ghost var hash := offset;
        while offset < |d| && d[offset] != '\n'
          invariant hash <= offset <= |d| && LineEnd(d, hash) == LineEnd(d, offset)
        {
          offset := offset + 1;
        }
        continue;
      }
      break;
    }
    var start := offset;
    while offset < |d| && !Space(d[offset])
      invariant start <= offset <= |d| && TokenEnd(d, start) == TokenEnd(d, offset)
    {
      offset := offset + 1;
    }
    field := d[start..offset];
  }

  /** `d[from:to]`; a negative end counts from the end. */
  function Slice(d: string, from: nat, to: int): (s: string)
    ensures from <= to <= |d| ==> s == d[from..to]
    ensures 0 <= to < from ==> s == ""
    ensures from <= |d| < to ==> s == d[from..]
    ensures |d| <= from ==> s == ""
    ensures to < 0 && from <= |d| + to ==> s == d[from..|d| + to]
    ensures to < 0 && |d| + to < from ==> s == ""
  {
    var end := if to < 0 then |d| + to else if to < |d| then to else |d|;
    if from < end then d[from..end] else ""
  }

  /** `read_ppm` for a file that is not a PAM. */
  function ReadP6(d: string): Read {
    var f0 := Field(d, 0);
    var f1 := Field(d, f0.1);
    var f2 := Field(d, f1.1);
    var f3 := Field(d, f2.1);
    if d[f0.0..f0.1] != "P6" || d[f3.0..f3.1] != "255" then NotP6
    else
      var w, h := ParseInt(d[f1.0..f1.1]), ParseInt(d[f2.0..f2.1]);
      if w.NotANumber? || h.NotANumber? then BadNumber
      else TakeBody(d, f3.1 + 1, w.value, h.value)
  }

  function TakeBody(d: string, from: nat, w: int, h: int): Read {
    var body := Slice(d, from, from + w * h * 3);
    if |body| != w * h * 3 then Truncated else Image(w, h, body)
  }

  /** A byte between fields: white space, or a comment from a `#` to the end of its line. */
  ghost predicate GapByte(d: string, o: nat, i: int) {
    o <= i < |d| && (Space(d[i]) || exists h :: o <= h <= i && d[h] == '#' && OneLine(d, h, i))
  }

  ghost predicate OneLine(d: string, h: int, i: int) {
    0 <= h <= i < |d| && forall j :: h <= j <= i ==> d[j] != '\n'
  }

  /** The field after o is what stands between the first byte that is no gap and the next white space. */
  ghost predicate FieldAt(d: string, o: nat, f: (nat, nat)) {
    && o <= f.0 <= f.1 <= |d| && (forall i :: o <= i < f.0 ==> GapByte(d, o, i)) && !GapByte(d, o, f.0)
    && (forall i :: f.0 <= i < f.1 ==> !Space(d[i])) && (f.1 < |d| ==> Space(d[f.1]))
  }

  lemma {:induction false} FieldIs(d: string, o: nat)
    requires o <= |d|
    ensures FieldAt(d, o, Field(d, o))
    decreases |d| - o
  {
    var s := SpaceEnd(d, o);
    SpaceEndIs(d, o);
    if s < |d| && d[s] == '#' {
      var c := LineEnd(d, s);
      LineEndIs(d, s);
      FieldIs(d, c);
      var f := Field(d, c);
      forall i | o <= i < f.0 ensures GapByte(d, o, i) {
        if s <= i < c {
          assert OneLine(d, s, i);
        } else if c <= i {
          assert GapByte(d, c, i);
        }
      }
      if GapByte(d, o, f.0) { GapLater(d, o, c, f.0); }
    } else {
      TokenEndIs(d, s);
      NoGapHere(d, o, s);
    }
  }

  lemma GapLater(d: string, o: nat, c: nat, i: nat)
    requires o <= c <= i < |d| && GapByte(d, o, i) && d[c] == '\n'
    ensures GapByte(d, c, i)
  {
    if !Space(d[i]) {
      var h :| o <= h <= i && d[h] == '#' && OneLine(d, h, i);
    }
  }

  lemma NoGapHere(d: string, o: nat, s: nat)
    requires o <= s <= |d| && (forall i :: o <= i < s ==> Space(d[i])) && (s < |d| ==> !Space(d[s]) && d[s] != '#')
    ensures !GapByte(d, o, s)
  {
    assert !Space('#');
  }

  lemma {:induction false} SpaceEndIs(d: string, o: nat)
    requires o <= |d|
    ensures forall i :: o <= i < SpaceEnd(d, o) ==> Space(d[i])
    ensures SpaceEnd(d, o) < |d| ==> !Space(d[SpaceEnd(d, o)])
    decreases |d| - o
  {
    if o < |d| && Space(d[o]) { SpaceEndIs(d, o + 1); }
  }

  lemma {:induction false} TokenEndIs(d: string, o: nat)
    requires o <= |d|
    ensures forall i :: o <= i < TokenEnd(d, o) ==> !Space(d[i])
    ensures TokenEnd(d, o) < |d| ==> Space(d[TokenEnd(d, o)])
    decreases |d| - o
  {
    if o < |d| && !Space(d[o]) { TokenEndIs(d, o + 1); }
  }

  lemma {:induction false} LineEndIs(d: string, o: nat)
    requires o <= |d|
    ensures (forall i :: o <= i < LineEnd(d, o) ==> d[i] != '\n') && (LineEnd(d, o) < |d| ==> d[LineEnd(d, o)] == '\n')
    decreases |d| - o
  {
    if o < |d| && d[o] != '\n' { LineEndIs(d, o + 1); }
  }

  /** There is one field after a place. */
  lemma FieldOnce(d: string, o: nat, f: (nat, nat), g: (nat, nat))
    requires FieldAt(d, o, f) && FieldAt(d, o, g)
    ensures f == g
  {
  }

  /** What is read of a P6, from the four fields: the magic number and the maximum are tested first,
      then the sizes are read, and the body starts one byte after the last field. */
  lemma P6Cases(d: string, m: (nat, nat), w: (nat, nat), h: (nat, nat), x: (nat, nat))
    requires FieldAt(d, 0, m) && FieldAt(d, m.1, w) && FieldAt(d, w.1, h) && FieldAt(d, h.1, x)
    ensures var width, height, r := ParseInt(d[w.0..w.1]), ParseInt(d[h.0..h.1]), ReadP6(d);
      if d[m.0..m.1] != "P6" || d[x.0..x.1] != "255" then r == NotP6
      else if width == NotANumber || height == NotANumber then r == BadNumber
      else
        var n, from := width.value * height.value * 3, x.1 + 1;
        && (0 <= n && from + n <= |d| ==> r == Image(width.value, height.value, d[from..from + n]))
        && (n < 0 || (0 < n && |d| < from + n) ==> r == Truncated)
        && (n == 0 ==> r == Image(width.value, height.value, ""))
  {
    hide Field, FieldAt, ParseInt, Slice;
    FieldIs(d, 0);
    FieldOnce(d, 0, m, Field(d, 0));
    FieldIs(d, m.1);
    FieldOnce(d, m.1, w, Field(d, m.1));
    FieldIs(d, w.1);
    FieldOnce(d, w.1, h, Field(d, w.1));
    FieldIs(d, h.1);
    FieldOnce(d, h.1, x, Field(d, h.1));
    var width, height := ParseInt(d[w.0..w.1]), ParseInt(d[h.0..h.1]);
    if width.Number? && height.Number? {
      BodyCases(d, x.1 + 1, width.value, height.value);
    }
  }

  lemma BodyCases(d: string, from: nat, w: int, h: int)
    requires from <= |d| + 1
    ensures var n := w * h * 3;
      && (0 <= n && from + n <= |d| ==> TakeBody(d, from, w, h) == Image(w, h, d[from..from + n]))
      && (n < 0 || (0 < n && |d| < from + n) ==> TakeBody(d, from, w, h) == Truncated)
      && (n == 0 ==> TakeBody(d, from, w, h) == Image(w, h, ""))
  {
    SliceSize(d, from, w * h * 3);
    hide Slice;
  }

  lemma SliceSize(d: string, from: nat, n: int)
    requires from <= |d| + 1
    ensures 0 <= n && from + n <= |d| ==> Slice(d, from, from + n) == d[from..from + n]
    ensures |Slice(d, from, from + n)| == n <==> n == 0 || (0 < n && from + n <= |d|)
    ensures n == 0 ==> Slice(d, from, from + n) == ""
  {
  }

  method ReadPpm(d: string) returns (r: Read)
    ensures r == if StartsWith(d, "P7") then ReadPam(d) else ReadP6(d)
  {
    hide Field, ParseInt, Slice, ReadPam, StartsWith;
    if StartsWith(d, "P7") {
      r := ReadPamFile(d);
      return;
    }
    var magic, width, height, maxval, offset;
    magic, offset := NextField(d, 0);
    width, offset := NextField(d, offset);
    height, offset := NextField(d, offset);
    maxval, offset := NextField(d, offset);
    offset := offset + 1;
    if magic != "P6" || maxval != "255" {
      return NotP6;
    }
    var w, h := ParseInt(width), ParseInt(height);
    if w.NotANumber? || h.NotANumber? {
      return BadNumber;
    }
    var body := Slice(d, offset, offset + w.value * h.value * 3);
    if |body| != w.value * h.value * 3 {
      return Truncated;
    }
    r := Image(w.value, h.value, body);
  }

  lemma {:induction false} SpacesSkipped(d: string, o: nat, s: nat)
    requires o <= s <= |d| && (forall i :: o <= i < s ==> Space(d[i])) && (s < |d| ==> !Space(d[s]))
    ensures SpaceEnd(d, o) == s
    decreases s - o
  {
    if o < s { SpacesSkipped(d, o + 1, s); }
  }

  lemma {:induction false} TokenTaken(d: string, s: nat, e: nat)
    requires s <= e <= |d| && (forall i :: s <= i < e ==> !Space(d[i])) && (e < |d| ==> Space(d[e]))
    ensures TokenEnd(d, s) == e
    decreases e - s
  {
    if s < e { TokenTaken(d, s + 1, e); }
  }

  /** A field between white space is found where it stands. */
  lemma FieldFound(d: string, o: nat, s: nat, e: nat)
    requires o <= s < e < |d| && (forall i :: o <= i < s ==> Space(d[i]))
    requires (forall i :: s <= i < e ==> !Space(d[i])) && d[s] != '#' && Space(d[e])
    ensures Field(d, o) == (s, e)
  {
    SpacesSkipped(d, o, s);
    TokenTaken(d, s, e);
  }

  lemma DigitsPlain(n: nat)
    ensures Decimal(n) != ""
    ensures forall i :: 0 <= i < |Decimal(n)| ==> !Space(Decimal(n)[i]) && Decimal(n)[i] != '#'
  {
  }

  /** Round trip: any picture written is read back with its size and its bytes, whatever the first
      body bytes are. */
  lemma PpmRoundTrip(width: nat, height: nat, body: string)
    requires |body| == width * height * 3
    ensures var d := PpmHeader(width, height) + body; !StartsWith(d, "P7") && ReadP6(d) == Image(width, height, body)
  {
    hide Decimal, ParseInt, Field, Slice, StartsWith;
    var w, h := Decimal(width), Decimal(height);
    var d := PpmHeader(width, height) + body;
    DigitsPlain(width);
    DigitsPlain(height);
    PpmFields(w, h, body);
    assert d == "P6\n" + w + " " + h + "\n255\n" + body;
    ParseDecimal(width);
    ParseDecimal(height);
    SliceRest(d, 3 + |w| + 1 + |h| + 5, body);
  }

  /** The three bytes at pixel (x, y) of a body. */
  predicate PixelAt(body: string, width: nat, x: nat, y: nat, rgb: string) {
    var i := (y * width + x) * 3;
    0 <= i && i + 3 <= |body| && body[i..i + 3] == rgb
  }

  /** A picture written by `write_ppm` is read back with its width, its height and, pixel by pixel,
      its colours. */
  lemma PictureRoundTrip(img: Picture)
    requires img.Valid()
    ensures ReadP6(PpmHeader(img.width, |img.rows|) + BodyBytes(img.rows))
         == Image(img.width, |img.rows|, BodyBytes(img.rows))
    ensures forall x: nat, y: nat :: x < img.width && y < |img.rows| ==>
        PixelAt(BodyBytes(img.rows), img.width, x, y, Rgb(img.rows[y][x]))
  {
    hide BodyBytes, ReadP6, PpmHeader, Rgb, PixelAt;
    BodySize(img.rows, img.width);
    SwapSides(img.width, |img.rows|);
    PpmRoundTrip(img.width, |img.rows|, BodyBytes(img.rows));
    forall x: nat, y: nat | x < img.width
      && y < |img.rows| ensures PixelAt(BodyBytes(img.rows), img.width, x, y, Rgb(img.rows[y][x])) {
      ReadBack(img.rows, img.width, x, y);
    }
  }

  lemma ReadBack(rows: seq<seq<nat>>, width: nat, x: nat, y: nat)
    requires (forall k :: 0 <= k < |rows| ==> |rows[k]| == width) && x < width && y < |rows|
    ensures PixelAt(BodyBytes(rows), width, x, y, Rgb(rows[y][x]))
  {
    hide BodyBytes, Rgb;
    BodyPixel(rows, width, x, y);
  }

  lemma SwapSides(w: nat, h: nat)
    ensures h * w * 3 == w * h * 3
  {
  }

  lemma SliceRest(d: string, from: nat, body: string)
    requires from <= |d| && d[from..] == body
    ensures Slice(d, from, from + |body|) == body
  {
  }

  /** Where the four fields of a written header are found. */
  lemma PpmFields(w: string, h: string, body: string)
    requires w != "" && h != ""
    requires forall i :: 0 <= i < |w| ==> !Space(w[i]) && w[i] != '#'
    requires forall i :: 0 <= i < |h| ==> !Space(h[i]) && h[i] != '#'
    ensures var d, a := "P6\n" + w + " " + h + "\n255\n" + body, 3 + |w|;
      var b := a + 1 + |h|;
      && |d| >= b + 5 && !StartsWith(d, "P7")
      && Field(d, 0) == (0, 2) && Field(d, 2) == (3, a) && Field(d, a) == (a + 1, b) && Field(d, b) == (b + 1, b + 4)
      && d[0..2] == "P6" && d[3..a] == w && d[a + 1..b] == h && d[b + 1..b + 4] == "255" && d[b + 5..] == body
  {
    hide Field, Space, StartsWith;
    var d, a := "P6\n" + w + " " + h + "\n255\n" + body, 3 + |w|;
    var b := a + 1 + |h|;
    SpaceChars();
    PpmBytes(w, h, body);
    FieldFound(d, 0, 0, 2);
    FieldFound(d, 2, 3, a);
    FieldFound(d, a, a + 1, b);
    FieldFound(d, b, b + 1, b + 4);
  }

  lemma PpmBytes(w: string, h: string, body: string)
    ensures var d, a := "P6\n" + w + " " + h + "\n255\n" + body, 3 + |w|;
      var b := a + 1 + |h|;
      && |d| >= b + 5 && !StartsWith(d, "P7")
      && d[0] == 'P' && d[1] == '6' && d[2] == '\n' && d[a] == ' ' && d[b] == '\n' && d[b + 4] == '\n'
      && d[b + 1] == '2' && d[b + 2] == '5' && d[b + 3] == '5'
      && (forall i :: 3 <= i < a ==> d[i] == w[i - 3]) && (forall i :: a + 1 <= i < b ==> d[i] == h[i - a - 1])
      && d[0..2] == "P6" && d[3..a] == w && d[a + 1..b] == h && d[b + 1..b + 4] == "255" && d[b + 5..] == body
  {
    var d := "P6\n" + w + " " + h + "\n255\n" + body;
    assert d[..2][1] == '6';
  }

  lemma SpaceChars()
    ensures Space(' ') && Space('\n') && !Space('P') && !Space('6') && !Space('2') && !Space('5')
  {
  }

  // ------------------------------------------------------- reading a PAM

  /** The lines of a header; a carriage return, a line feed or both end one. */
  function SplitLines(s: string, cur: string): seq<string>
    decreases |s|
  {
    if s == "" then (if cur == "" then [] else [cur])
    else if s[0] == '\r' && |s| > 1 && s[1] == '\n' then [cur] + SplitLines(s[2..], "")
    else if s[0] == '\r' || s[0] == '\n' then [cur] + SplitLines(s[1..], "")
    else SplitLines(s[1..], cur + [s[0]])
  }

  /** One header line: a key and a value, or nothing. */
  function AddKey(keys: map<string, string>, line: string): map<string, string> {
    var parts := Words(line, "");
    if |parts| == 2 then keys[parts[0] := parts[1]] else keys
  }

  function HeaderKeys(lines: seq<string>): map<string, string> {
    if lines == [] then map[] else AddKey(HeaderKeys(lines[..|lines| - 1]), lines[|lines| - 1])
  }

  /** A key has the value of the last line of two words that begins with it. */
  lemma {:induction false} KeysAre(lines: seq<string>, k: string, v: string)
    ensures k in HeaderKeys(lines) && HeaderKeys(lines)[k] == v <==>
        exists i :: 0 <= i < |lines| && Words(lines[i], "") == [k, v] && NotAfter(lines, k, i)
    ensures k !in HeaderKeys(lines) <==> NotAfter(lines, k, -1)
  {
    if lines != [] {
      var n := |lines| - 1;
      var front := lines[..n];
      KeysAre(front, k, v);
      var words := Words(lines[n], "");
      hide Words;
      assert |words| == 2 ==> words == [words[0], words[1]];
      if |words| == 2 && words[0] == k {
        assert NotAfter(lines, k, n);
        assert forall i :: -1 <= i < n ==> !NotAfter(lines, k, i);
      } else {
        assert forall i :: -1 <= i < n ==> (NotAfter(lines, k, i) <==> NotAfter(front, k, i));
        assert forall i :: 0 <= i < n ==> front[i] == lines[i];
      }
    }
  }

  /** No line after line i is two words of which k is the first. */
  ghost predicate NotAfter(lines: seq<string>, k: string, i: int) {
    forall j :: i < j < |lines| && 0 <= j ==> !(|Words(lines[j], "")| == 2 && Words(lines[j], "")[0] == k)
  }

  function KeyNumber(keys: map<string, string>, k: string): Number {
    if k in keys then ParseInt(keys[k]) else NotANumber
  }

  /** The first n pixels of a body of four bytes a pixel, alpha dropped. */
  function DropAlpha(body: string, n: nat): (s: string)
    requires n * 4 <= |body|
    ensures |s| == n * 3
  {
    if n == 0 then "" else DropAlpha(body, n - 1) + body[(n - 1) * 4..(n - 1) * 4 + 3]
  }

  /** `read_pam`. A missing key or a value that is no number ends the program. */
  function ReadPam(d: string): Read {
    var at := Find(d, "ENDHDR\n", 0);
    var header := d[..at];
    var body := if at == |d| then "" else d[at + 7..];
    var lines := SplitLines(header, "");
    PamOf(HeaderKeys(if lines == [] then [] else lines[1..]), body)
  }

  /** The rest, from the keys and the body. */
  function PamOf(keys: map<string, string>, body: string): Read {
    var w, h := KeyNumber(keys, "WIDTH"), KeyNumber(keys, "HEIGHT");
    var depth, maxval := KeyNumber(keys, "DEPTH"), KeyNumber(keys, "MAXVAL");
    if w.NotANumber? || h.NotANumber? || depth.NotANumber? || maxval.NotANumber? then BadNumber
    else if maxval.value != 255 || (depth.value != 3 && depth.value != 4) then BadPam
    else TakePixels(body, w.value, h.value, depth.value)
  }

  /** With a negative number of pixels three bytes a pixel are cut off the end, and there is no
      buffer for four. */
  function TakePixels(body: string, w: int, h: int, depth: int): Read
    requires depth == 3 || depth == 4
  {
    var n := w * h;
    if |body| < n * depth then Truncated
    else if depth == 3 then Image(w, h, Slice(body, 0, n * 3))
    else if n < 0 then BadNumber
    else Image(w, h, DropAlpha(body, n))
  }

  /** The first three bytes of every four. */
  ghost predicate RgbOf(rgb: string, body: string, n: int) {
    0 <= n && |rgb| == n * 3 && forall i :: 0 <= i < n ==> SameRgb(rgb, i, body)
  }

  ghost predicate SameRgb(rgb: string, i: int, body: string) {
    && 0 <= i * 3 && i * 3 + 2 < |rgb| && 0 <= i * 4 && i * 4 + 2 < |body|
    && rgb[i * 3] == body[i * 4] && rgb[i * 3 + 1] == body[i * 4 + 1] && rgb[i * 3 + 2] == body[i * 4 + 2]
  }

  /** What the four numbers of a header and the body of a PAM amount to. */
  ghost predicate PamIs(r: Read, body: string, w: int, h: int, depth: int, maxval: int) {
    if maxval != 255 || !(3 <= depth <= 4) then r == BadPam
    else if |body| < w * h * depth then r == Truncated
    else if w * h < 0 && depth == 4 then r == BadNumber
    else if w * h < 0 then r == Image(w, h, if |body| + w * h * 3 < 0 then "" else body[..|body| + w * h * 3])
    else if depth == 3 then r == Image(w, h, body[..w * h * 3])
    else r.Image? && r.width == w && r.height == h && RgbOf(r.body, body, w * h)
  }

  /** What is read of a PAM: the header is what stands before the first end mark, its first line is not
      looked at, and of four bytes a pixel the first three are kept. */
  lemma PamCases(header: string, body: string, w: int, h: int, depth: int, maxval: int)
    requires forall k :: 0 <= k < |header| ==> !Occurs(header + "ENDHDR\n" + body, "ENDHDR\n", k)
    ensures var lines := SplitLines(header, "");
      var keys, r := HeaderKeys(if lines == [] then [] else lines[1..]), ReadPam(header + "ENDHDR\n" + body);
      && (!(Is(keys, "WIDTH") && Is(keys, "HEIGHT") && Is(keys, "DEPTH") && Is(keys, "MAXVAL")) ==> r == BadNumber)
      && (AllSay(keys, w, h, depth, maxval) ==> PamIs(r, body, w, h, depth, maxval))
  {
    var d := header + "ENDHDR\n" + body;
    MarkFound(header, body);
    assert d[..|header|] == header && d[|header| + 7..] == body;
    var lines := SplitLines(header, "");
    KeyCases(HeaderKeys(if lines == [] then [] else lines[1..]), body, w, h, depth, maxval);
    hide SplitLines, HeaderKeys, Find, PamOf, PamIs, AllSay, Is;
  }

  lemma KeyCases(keys: map<string, string>, body: string, w: int, h: int, depth: int, maxval: int)
    ensures var r := PamOf(keys, body);
      && (!(Is(keys, "WIDTH") && Is(keys, "HEIGHT") && Is(keys, "DEPTH") && Is(keys, "MAXVAL")) ==> r == BadNumber)
      && (AllSay(keys, w, h, depth, maxval) ==> PamIs(r, body, w, h, depth, maxval))
  {
    hide ParseInt, TakePixels, PamIs;
    if AllSay(keys, w, h, depth, maxval) {
      if (depth == 3 || depth == 4) && maxval == 255 {
        PixelCases(body, w, h, depth);
      } else {
        BadCases(body, w, h, depth, maxval);
      }
    }
  }

  lemma BadCases(body: string, w: int, h: int, depth: int, maxval: int)
    requires maxval != 255 || !(3 <= depth <= 4)
    ensures PamIs(BadPam, body, w, h, depth, maxval)
  {
  }

  lemma MarkFound(header: string, body: string)
    requires forall k :: 0 <= k < |header| ==> !Occurs(header + "ENDHDR\n" + body, "ENDHDR\n", k)
    ensures Find(header + "ENDHDR\n" + body, "ENDHDR\n", 0) == |header|
  {
    var d := header + "ENDHDR\n" + body;
    assert d[|header|..|header| + 7] == "ENDHDR\n";
    assert Occurs(d, "ENDHDR\n", |header|);
  }

  lemma PixelCases(body: string, w: int, h: int, depth: int)
    requires depth == 3 || depth == 4
    ensures PamIs(TakePixels(body, w, h, depth), body, w, h, depth, 255)
  {
    var n := w * h;
    hide DropAlpha, RgbOf;
    if depth == 4 && n >= 0 && n * 4 <= |body| {
      DropAlphaAt(body, n);
    }
  }

  lemma {:induction false} DropAlphaAt(body: string, n: nat)
    requires n * 4 <= |body|
    ensures RgbOf(DropAlpha(body, n), body, n)
  {
    if n > 0 {
      DropAlphaAt(body, n - 1);
      var front, last := DropAlpha(body, n - 1), body[(n - 1) * 4..(n - 1) * 4 + 3];
      var all := DropAlpha(body, n);
      assert all == front + last;
      hide DropAlpha;
      assert last[0] == body[(n - 1) * 4] && last[1] == body[(n - 1) * 4 + 1] && last[2] == body[(n - 1) * 4 + 2];
      forall i | 0 <= i < n ensures SameRgb(all, i, body) {
        if i < n - 1 {
          assert SameRgb(front, i, body);
        } else {
          LastRgb(front, last, body, i);
        }
      }
    }
  }

  lemma LastRgb(front: string, last: string, body: string, i: nat)
    requires |front| == i * 3 && |last| == 3 && i * 4 + 2 < |body|
    requires last[0] == body[i * 4] && last[1] == body[i * 4 + 1] && last[2] == body[i * 4 + 2]
    ensures SameRgb(front + last, i, body)
  {
  }

  /** The key is there and its value is a number; and that number. */
  ghost predicate Is(keys: map<string, string>, k: string) {
    k in keys && ParseInt(keys[k]).Number?
  }

  ghost predicate Says(keys: map<string, string>, k: string, v: int) {
    k in keys && ParseInt(keys[k]) == Number(v)
  }

  ghost predicate AllSay(keys: map<string, string>, w: int, h: int, depth: int, maxval: int) {
    && Says(keys, "WIDTH", w) && Says(keys, "HEIGHT", h)
    && Says(keys, "DEPTH", depth) && Says(keys, "MAXVAL", maxval)
  }

  method ReadPamFile(d: string) returns (r: Read)
    ensures r == ReadPam(d)
  {
    hide Find, SplitLines, HeaderKeys, ParseInt, DropAlpha, Slice;
    var at := Find(d, "ENDHDR\n", 0);
    var body := if at == |d| then "" else d[at + 7..];
    var lines := SplitLines(d[..at], "");
    var keys := ReadKeys(if lines == [] then [] else lines[1..]);
    var w, h := KeyNumber(keys, "WIDTH"), KeyNumber(keys, "HEIGHT");
    var depth, maxval := KeyNumber(keys, "DEPTH"), KeyNumber(keys, "MAXVAL");
    if w.NotANumber? || h.NotANumber? || depth.NotANumber? || maxval.NotANumber? {
      return BadNumber;
    }
    if maxval.value != 255 || (depth.value != 3 && depth.value != 4) {
      return BadPam;
    }
    var n := w.value * h.value;
    if |body| < n * depth.value {
      return Truncated;
    }
    if depth.value == 3 {
      return Image(w.value, h.value, Slice(body, 0, n * 3));
    }
    if n < 0 {
      return BadNumber;
    }
    var rgb := CopyRgb(body, n);
    r := Image(w.value, h.value, rgb[..]);
  }

  method ReadKeys(lines: seq<string>) returns (keys: map<string, string>)
    ensures keys == HeaderKeys(lines)
  {
    hide AddKey;
    keys := map[];
    for i := 0 to |lines|
      invariant keys == HeaderKeys(lines[..i])
    {
      assert lines[..i + 1][..i] == lines[..i];
      keys := AddKey(keys, lines[i]);
    }
    assert lines[..|lines|] == lines;
  }

  /** The loop that fills the RGB buffer pixel by pixel. */
  method CopyRgb(body: string, n: nat) returns (rgb: array<char>)
    requires n * 4 <= |body|
    ensures fresh(rgb) && rgb[..] == DropAlpha(body, n)
    ensures RgbOf(rgb[..], body, n)
  {
    hide RgbOf, DropAlpha;
    NoAlphaYet(body);
    rgb := new char[n * 3](_ => '\0');
    for i := 0 to n
      invariant rgb[..i * 3] == DropAlpha(body, i)
    {
      rgb[i * 3], rgb[i * 3 + 1], rgb[i * 3 + 2] := body[i * 4], body[i * 4 + 1], body[i * 4 + 2];
      OneMoreAlpha(body, i);
      assert rgb[..(i + 1) * 3] == rgb[..i * 3] + body[i * 4..i * 4 + 3];
    }
    assert rgb[..n * 3] == rgb[..];
    DropAlphaAt(body, n);
  }

  lemma NoAlphaYet(body: string)
    ensures DropAlpha(body, 0) == ""
  {
  }

  lemma OneMoreAlpha(body: string, i: nat)
    requires (i + 1) * 4 <= |body|
    ensures DropAlpha(body, i + 1) == DropAlpha(body, i) + body[i * 4..i * 4 + 3]
  {
  }

  // ------------------------------------------------------- writing a PAM

  /** The header before its end mark. */
  function PamLines(width: nat, height: nat): string {
    "P7\n" + ("WIDTH " + Decimal(width) + "\n") + ("HEIGHT " + Decimal(height) + "\n") + "DEPTH 4\n" + "MAXVAL 255\n"
      + "TUPLTYPE RGB_ALPHA\n"
  }

  /** Red, green, blue, alpha of every pixel. */
  function RgbaBytes(px: seq<nat>): (s: string)
    ensures |s| == |px| * 4
  {
    if px == [] then "" else RgbaBytes(px[..|px| - 1]) + (Rgb(px[|px| - 1]) + [Byte(px[|px| - 1] / 0x100_0000)])
  }

  /** The four bytes of a pixel. */
  lemma {:induction false} RgbaAt(px: seq<nat>, i: nat)
    requires i < |px|
    ensures BytesAt(RgbaBytes(px), 4 * i, px[i])
    ensures RgbaBytes(px)[4 * i + 3] as int == px[i] / 0x100_0000 % 0x100
  {
    var front := px[..|px| - 1];
    if i < |px| - 1 {
      RgbaAt(front, i);
      assert forall j :: 0 <= j < |RgbaBytes(front)| ==> RgbaBytes(px)[j] == RgbaBytes(front)[j];
    } else {
      var last := Rgb(px[i]) + [Byte(px[i] / 0x100_0000)];
      assert forall j :: 0 <= j < 4 ==> RgbaBytes(px)[4 * i + j] == last[j];
    }
  }

  lemma {:induction false} DropAlphaOf(px: seq<nat>, n: nat)
    requires n <= |px|
    ensures DropAlpha(RgbaBytes(px), n) == RowBytes(px[..n])
    decreases |px|, n
  {
    hide Rgb, Byte;
    if n == 0 {
      return;
    }
    var front, body := px[..|px| - 1], RgbaBytes(px);
    assert body[..|RgbaBytes(front)|] == RgbaBytes(front);
    if n < |px| {
      DropAlphaPrefix(RgbaBytes(front), body, n);
      DropAlphaOf(front, n);
      assert front[..n] == px[..n];
    } else {
      DropAlphaPrefix(RgbaBytes(front), body, n - 1);
      DropAlphaOf(front, n - 1);
      assert front[..n - 1] == front && px[..n] == px;
      LastRgba(px);
    }
  }

  lemma {:induction false} LastRgba(px: seq<nat>)
    requires px != []
    ensures var m := (|px| - 1) * 4; RgbaBytes(px)[m..m + 3] == Rgb(px[|px| - 1])
  {
    hide Rgb, Byte;
    var front, last := RgbaBytes(px[..|px| - 1]), px[|px| - 1];
    var a := [Byte(last / 0x100_0000)];
    assert RgbaBytes(px) == front + (Rgb(last) + a);
    hide RgbaBytes;
    assert (front + (Rgb(last) + a))[|front|..|front| + 3] == Rgb(last);
  }

  lemma {:induction false} DropAlphaPrefix(a: string, b: string, n: nat)
    requires n * 4 <= |a| <= |b| && b[..|a|] == a
    ensures DropAlpha(a, n) == DropAlpha(b, n)
  {
    if n > 0 {
      DropAlphaPrefix(a, b, n - 1);
      assert a[(n - 1) * 4..(n - 1) * 4 + 3] == b[..|a|][(n - 1) * 4..(n - 1) * 4 + 3]
           == b[(n - 1) * 4..(n - 1) * 4 + 3];
    }
  }

  predicate NoBreak(s: string) {
    forall i :: 0 <= i < |s| ==> s[i] != '\n' && s[i] != '\r'
  }

  lemma {:induction false} SplitLine(l: string, rest: string, cur: string)
    requires NoBreak(l)
    ensures SplitLines(l + "\n" + rest, cur) == [cur + l] + SplitLines(rest, "")
    decreases |l|
  {
    BreakAt(l, "\n", rest, cur);
  }

  /** A line ends at a line feed, a carriage return or the two together, whichever is longer. */
  lemma {:induction false} BreakAt(l: string, brk: string, rest: string, cur: string)
    requires NoBreak(l) && brk in {"\n", "\r", "\r\n"} && (brk == "\r" && rest != "" ==> rest[0] != '\n')
    ensures SplitLines(l + brk + rest, cur) == [cur + l] + SplitLines(rest, "")
    decreases |l|
  {
    var s := l + brk + rest;
    if l == "" {
      assert s == brk + rest && cur + l == cur;
      assert s[|brk|..] == rest && s[..|brk|] == brk;
      assert forall i :: 0 <= i < |brk| ==> s[i] == brk[i];
      assert brk == "\r" && |s| > 1 ==> s[1] == rest[0];
    } else {
      assert s[0] == l[0] && s[1..] == l[1..] + brk + rest;
      BreakAt(l[1..], brk, rest, cur + [l[0]]);
      assert cur + [l[0]] + l[1..] == cur + l;
    }
  }

  /** What stands after the last break is a line if it is not empty. */
  lemma {:induction false} LastLine(l: string, cur: string)
    requires NoBreak(l)
    ensures SplitLines(l, cur) == if cur + l == "" then [] else [cur + l]
    decreases |l|
  {
    if l == "" {
      assert cur + l == cur;
    } else {
      LastLine(l[1..], cur + [l[0]]);
      assert cur + [l[0]] + l[1..] == cur + l;
    }
  }

  predicate NoSpaces(s: string) {
    forall i :: 0 <= i < |s| ==> !Space(s[i])
  }

  lemma {:induction false} OneWord(w: string, rest: string, cur: string)
    requires NoSpaces(w) && cur + w != ""
    ensures Words(w + " " + rest, cur) == [cur + w] + Words(rest, "")
    ensures Words(w, cur) == [cur + w]
    decreases |w|
  {
    var s := w + " " + rest;
    if w == "" {
      assert s[0] == ' ' && s[1..] == rest && cur + w == cur;
    } else {
      assert s[0] == w[0] && s[1..] == w[1..] + " " + rest;
      assert cur + [w[0]] + w[1..] == cur + w;
      OneWord(w[1..], rest, cur + [w[0]]);
    }
  }

  /** A line `key value` sets the key. */
  lemma SetsKey(keys: map<string, string>, k: string, v: string)
    requires NoSpaces(k) && NoSpaces(v) && k != "" && v != ""
    ensures AddKey(keys, k + " " + v) == keys[k := v]
  {
    OneWord(k, v, "");
    OneWord(v, "", "");
    assert "" + k == k && "" + v == v;
  }

  lemma DigitsNoBreak(n: nat)
    ensures NoSpaces(Decimal(n)) && NoBreak(Decimal(n)) && forall i :: 0 <= i < |Decimal(n)| ==> Decimal(n)[i] != 'N'
  {
  }

  lemma Literals()
    ensures NoSpaces("WIDTH") && NoSpaces("HEIGHT") && NoSpaces("DEPTH") && NoSpaces("MAXVAL") && NoSpaces("TUPLTYPE")
    ensures NoSpaces("4") && NoSpaces("255") && NoSpaces("RGB_ALPHA")
    ensures NoBreak("P7") && NoBreak("WIDTH ") && NoBreak("HEIGHT ") && NoBreak("DEPTH 4") && NoBreak("MAXVAL 255")
        && NoBreak("TUPLTYPE RGB_ALPHA")
  {
  }

  /** The lines of a written header. */
  lemma PamHeaderLines(width: nat, height: nat)
    ensures SplitLines(PamLines(width, height), "") ==
      ["P7", "WIDTH " + Decimal(width), "HEIGHT " + Decimal(height), "DEPTH 4", "MAXVAL 255", "TUPLTYPE RGB_ALPHA"]
  {
    hide SplitLines, Decimal;
    var w, h := Decimal(width), Decimal(height);
    Literals();
    DigitsNoBreak(width);
    DigitsNoBreak(height);
    var t5 := "TUPLTYPE RGB_ALPHA" + "\n" + "";
    var t4 := "MAXVAL 255" + "\n" + t5;
    var t3 := "DEPTH 4" + "\n" + t4;
    var t2 := ("HEIGHT " + h) + "\n" + t3;
    var t1 := ("WIDTH " + w) + "\n" + t2;
    assert PamLines(width, height) == "P7" + "\n" + t1;
    SplitLine("P7", t1, "");
    SplitLine("WIDTH " + w, t2, "");
    SplitLine("HEIGHT " + h, t3, "");
    SplitLine("DEPTH 4", t4, "");
    SplitLine("MAXVAL 255", t5, "");
    SplitLine("TUPLTYPE RGB_ALPHA", "", "");
    NoLines();
    NoPrefix("P7");
    NoPrefix("WIDTH " + w);
    NoPrefix("HEIGHT " + h);
    NoPrefix("DEPTH 4");
    NoPrefix("MAXVAL 255");
    NoPrefix("TUPLTYPE RGB_ALPHA");
  }

  lemma NoPrefix(l: string)
    ensures "" + l == l
  {
  }

  lemma NoLines()
    ensures SplitLines("", "") == []
  {
  }

  lemma PamKeys(w: string, h: string)
    requires NoSpaces(w) && NoSpaces(h) && w != "" && h != ""
    ensures var keys := HeaderKeys(["WIDTH " + w, "HEIGHT " + h, "DEPTH 4", "MAXVAL 255", "TUPLTYPE RGB_ALPHA"]);
      && "WIDTH" in keys && "HEIGHT" in keys && "DEPTH" in keys && "MAXVAL" in keys
      && keys["WIDTH"] == w && keys["HEIGHT"] == h && keys["DEPTH"] == "4" && keys["MAXVAL"] == "255"
  {
    hide AddKey;
    Literals();
    var l := ["WIDTH " + w, "HEIGHT " + h, "DEPTH 4", "MAXVAL 255", "TUPLTYPE RGB_ALPHA"];
    var k1: map<string, string> := map["WIDTH" := w];
    var k2 := k1["HEIGHT" := h];
    var k3 := k2["DEPTH" := "4"];
    var k4 := k3["MAXVAL" := "255"];
    SetsKey(map[], "WIDTH", w);
    SetsKey(k1, "HEIGHT", h);
    SetsKey(k2, "DEPTH", "4");
    SetsKey(k3, "MAXVAL", "255");
    SetsKey(k4, "TUPLTYPE", "RGB_ALPHA");
    assert "WIDTH" + " " + w == "WIDTH " + w && "HEIGHT" + " " + h == "HEIGHT " + h;
    assert "DEPTH" + " " + "4" == "DEPTH 4" && "MAXVAL" + " " + "255" == "MAXVAL 255"
        && "TUPLTYPE" + " " + "RGB_ALPHA" == "TUPLTYPE RGB_ALPHA";
    assert l[..1] == ["WIDTH " + w] && l[..1][..0] == [] && HeaderKeys([]) == map[];
    assert HeaderKeys(l[..1]) == k1;
    assert l[..2][..1] == l[..1];
    assert HeaderKeys(l[..2]) == k2;
    assert l[..3][..2] == l[..2];
    assert HeaderKeys(l[..3]) == k3;
    assert l[..4][..3] == l[..3];
    assert HeaderKeys(l[..4]) == k4;
    assert l[..4] == l[..|l| - 1];
    assert HeaderKeys(l) == k4["TUPLTYPE" := "RGB_ALPHA"];
  }

  /** No `N` before the end mark, so the mark is found where it was written. */
  lemma PamMark(header: string, body: string)
    requires forall i :: 0 <= i < |header| ==> header[i] != 'N'
    ensures Find(header + "ENDHDR\n" + body, "ENDHDR\n", 0) == |header|
  {
    var d := header + "ENDHDR\n" + body;
    forall k | 0 <= k < |header| ensures !Occurs(d, "ENDHDR\n", k) {
      if k + 7 <= |d| { assert d[k..k + 7][1] == d[k + 1] && "ENDHDR\n"[1] == 'N'; }
      assert d[|header|] == 'E';
    }
    MarkFound(header, body);
  }

  /** A PAM of a surface reads back as the triple its PPM reads back as: size, and the bytes with
      the alpha dropped. */
  lemma PamRoundTrip(width: nat, height: nat, px: seq<nat>)
    requires |px| == width * height
    ensures ReadPam(PamLines(width, height) + "ENDHDR\n" + RgbaBytes(px)) == Image(width, height, RowBytes(px))
    ensures ReadP6(PpmHeader(width, height) + RowBytes(px)) == Image(width, height, RowBytes(px))
  {
    hide Decimal, ParseInt, SplitLines, HeaderKeys, RgbaBytes, RowBytes, DropAlpha, Find, ReadP6, PpmHeader, Slice;
    var w, h := Decimal(width), Decimal(height);
    var header, body := PamLines(width, height), RgbaBytes(px);
    var d := header + "ENDHDR\n" + body;
    NoN(width, height);
    PamMark(header, body);
    assert d[..|header|] == header && d[|header| + 7..] == body;
    PamHeaderLines(width, height);
    DigitsPlain(width);
    DigitsPlain(height);
    DigitsNoBreak(width);
    DigitsNoBreak(height);
    PamKeys(w, h);
    var lines := ["P7", "WIDTH " + w, "HEIGHT " + h, "DEPTH 4", "MAXVAL 255", "TUPLTYPE RGB_ALPHA"];
    assert lines[1..] == ["WIDTH " + w, "HEIGHT " + h, "DEPTH 4", "MAXVAL 255", "TUPLTYPE RGB_ALPHA"];
    ParseDecimal(width);
    ParseDecimal(height);
    PamConstants();
    DropAlphaOf(px, |px|);
    assert px[..|px|] == px;
    PpmRoundTrip(width, height, RowBytes(px));
  }

  lemma PamConstants()
    ensures ParseInt("4") == Number(4) && ParseInt("255") == Number(255)
  {
    assert "255"[..2] == "25" && "25"[..1] == "2";
    assert ParseDigits("2") == Number(2) && ParseDigits("25") == Number(25) && ParseDigits("255") == Number(255);
  }

  lemma NoN(width: nat, height: nat)
    ensures var s := PamLines(width, height); forall i :: 0 <= i < |s| ==> s[i] != 'N'
  {
  }
}
