/** Writing an image to a BMP file and reading it back. */
module Bmp {

  import opened Common
  import opened LittleEndian

  const BW: int := 0
  const COLOR: int := 1

  datatype BmpError = WrongFormat

  /** ret is the number of bytes, or -1 when the file is longer or shorter than it should be. */
  datatype Image = Image(format: int, width: int, height: int, data: seq<Byte>, ret: int)

  // ---------- swapping the outer bytes of every three ----------

  /** The index i changes places with; bytes after the last full three stay. */
  function Partner(i: nat, n: nat): (r: nat)
    requires i < n
    ensures r < n
  {
    if i / 3 * 3 + 2 < n then i / 3 * 3 + 2 - i % 3 else i
  }

  function Swapped(s: seq<Byte>): (r: seq<Byte>)
    ensures |r| == |s|
  {
    seq(|s|, i requires 0 <= i < |s| => s[Partner(i, |s|)])
  }

  lemma PartnerOfPartner(i: nat, n: nat)
    requires i < n
    ensures Partner(Partner(i, n), n) == i
  {
    var j := Partner(i, n);
    assert j / 3 == i / 3;
  }

  /** Swapping twice changes nothing. */
  lemma SwappedTwice(s: seq<Byte>)
    ensures Swapped(Swapped(s)) == s
  {
    forall i | 0 <= i < |s| ensures Swapped(Swapped(s))[i] == s[i] {
      PartnerOfPartner(i, |s|);
    }
  }

  /** s with its last byte and the one two before it exchanged, when it ends a three. */
  function EndSwapped(s: seq<Byte>): (r: seq<Byte>)
    requires s != []
    ensures |r| == |s|
  {
    if |s| % 3 == 0 then s[|s| - 1 := s[|s| - 3]][|s| - 3 := s[|s| - 1]] else s
  }

  lemma SwappedOneMore(s: seq<Byte>, c: Byte)
    ensures Swapped(s + [c]) == EndSwapped(Swapped(s) + [c])
  {
    var n, t := |s|, s + [c];
    var now, was := Swapped(t), EndSwapped(Swapped(s) + [c]);
    forall i | 0 <= i <= n ensures now[i] == was[i] {
    }
  }

  /** A file holds colours blue first, the image red first. */
  function Arranged(format: int, s: seq<Byte>): (r: seq<Byte>)
    ensures |r| == |s|
  {
    if format == COLOR then Swapped(s) else s
  }

  lemma ArrangedOneMore(format: int, body: seq<Byte>, i: nat)
    requires i < |body|
    ensures var r := Arranged(format, body[..i]) + [body[i]];
            Arranged(format, body[..i + 1]) == if format == COLOR then EndSwapped(r) else r
  {
    SwappedOneMore(body[..i], body[i]);
    assert body[..i + 1] == body[..i] + [body[i]];
  }

  // ---------- the file ----------

  const FILE_HEADER: nat := 54
  const PALETTE: nat := 1024

  /** A 256-entry grey ramp. */
  function Palette(): (r: seq<Byte>)
    ensures |r| == PALETTE
  {
    seq(PALETTE, i requires 0 <= i < PALETTE => PaletteByte(i))
  }

  /** Blue, green and red of each grey, and a byte of padding. */
  function PaletteByte(i: nat): (r: Byte)
    requires i < PALETTE
  {
    if i % 4 == 3 then 0 else i / 4
  }

  function DataSize(format: int, width: int, height: int): (r: int) {
    if format == COLOR then 3 * (width * height) else width * height
  }

  /** The size field; it leaves out the palette and counts padding that is not written. */
  function SizeField(data: nat): (r: Long) {
    (data + 54 + (data + 54) % 4) % 0x1_0000_0000
  }

  function HeaderStart(size: Long, offset: Long): (r: seq<Byte>)
    ensures |r| == 18
  {
    WordBytes(19778) + FromSize(size, offset)
  }

  function FromSize(size: Long, offset: Long): (r: seq<Byte>)
    ensures |r| == 16
  {
    LongBytes(size) + FromReserved(offset)
  }

  function FromReserved(offset: Long): (r: seq<Byte>)
    ensures |r| == 12
  {
    Zeros(4) + (LongBytes(offset) + LongBytes(40))
  }

  /** Four fields that are left 0, the number of colours, and one more 0. */
  function HeaderEnd(format: int): (r: seq<Byte>)
    ensures |r| == 24
  {
    Zeros(16) + (LongBytes(Colours(format)) + Zeros(4))
  }

  function Zeros(n: nat): (r: seq<Byte>)
    ensures |r| == n
  {
    seq(n, _ => 0)
  }

  function Colours(format: int): (r: Long) {
    if format == BW then 256 else 0
  }

  function Bits(format: int): (r: Word) {
    if format == BW then 8 else 24
  }

  /** The header from the width on. */
  function FromWidth(format: int, width: Long, height: Long): (r: seq<Byte>)
    ensures |r| == 36
  {
    LongBytes(width) + FromHeight(format, height)
  }

  function FromHeight(format: int, height: Long): (r: seq<Byte>)
    ensures |r| == 32
  {
    LongBytes(height) + FromPlanes(format)
  }

  function FromPlanes(format: int): (r: seq<Byte>)
    ensures |r| == 28
  {
    WordBytes(1) + (WordBytes(Bits(format)) + HeaderEnd(format))
  }

  function Header(format: int, width: Long, height: Long, data: nat): (r: seq<Byte>)
    ensures |r| == FILE_HEADER
  {
    HeaderStart(SizeField(data), if format == BW then FILE_HEADER + PALETTE else FILE_HEADER)
    + FromWidth(format, width, height)
  }

  predicate IsImage(format: int, width: nat, height: nat, data: seq<Byte>) {
    && (format == BW || format == COLOR) && width < 0x8000_0000 && height < 0x8000_0000
    && |data| == DataSize(format, width, height)
  }

  function FileOf(format: int, width: nat, height: nat, data: seq<Byte>): (r: seq<Byte>)
    requires IsImage(format, width, height, data)
  {
    FileWith(Header(format, width, height, |data|), format, data)
  }

  function FileWith(header: seq<Byte>, format: int, data: seq<Byte>): (r: seq<Byte>) {
    header + (if format == BW then Palette() + data else Swapped(data))
  }

  function SignedLong(x: Long): (r: int) {
    if x < 0x8000_0000 then x else x - 0x1_0000_0000
  }

  /** C's division: towards zero. */
  function Truncated(a: int, b: nat): (r: int)
    requires b > 0
  {
    if a >= 0 then a / b else -((-a) / b)
  }

  function FormatOf(bits: Word): (r: int) {
    Truncated(bits / 8 - 1, 2)
  }

  /** What is left of the file after the header and, for a grey image, the palette. */
  function Body(file: seq<Byte>, format: int): (r: seq<Byte>)
    requires |file| >= FILE_HEADER
  {
    file[if format == BW then Min(|file|, FILE_HEADER + PALETTE) else FILE_HEADER..]
  }

  function ReadBack(file: seq<Byte>): (r: Result<Image, BmpError>)
    requires |file| >= FILE_HEADER
  {
    var width, height := SignedLong(LongAt(file, 18)), SignedLong(LongAt(file, 22));
    var format := FormatOf(WordAt(file, 28));
    if format != BW && format != COLOR then Err(WrongFormat)
    else Ok(ImageOf(width, height, format, Body(file, format)))
  }

  function ImageOf(width: int, height: int, format: int, body: seq<Byte>): (r: Image) {
    var len := DataSize(format, width, height);
    var data := if |body| <= len then body else if len >= 0 then body[..len] else [];
    Image(format, width, height, Arranged(format, data), if |body| == len then len else -1)
  }

  lemma FieldsFromWidth(format: int, width: Long, height: Long)
    ensures var s := FromWidth(format, width, height);
            LongAt(s, 0) == width && LongAt(s, 4) == height && WordAt(s, 10) == Bits(format)
  {
    LongInFront(width, FromHeight(format, height));
    LongInFront(height, FromPlanes(format));
    LongBehind(LongBytes(width), FromHeight(format, height), 0);
    WordBehind(LongBytes(width), FromHeight(format, height), 6);
    WordBehind(LongBytes(height), FromPlanes(format), 2);
    WordInFront(Bits(format), HeaderEnd(format));
    WordBehind(WordBytes(1), WordBytes(Bits(format)) + HeaderEnd(format), 0);
  }

  lemma HeaderFields(format: int, width: Long, height: Long, data: nat, rest: seq<Byte>)
    ensures var file := Header(format, width, height, data) + rest;
            && |file| >= FILE_HEADER
            && LongAt(file, 18) == width && LongAt(file, 22) == height && WordAt(file, 28) == Bits(format)
  {
    var start := HeaderStart(SizeField(data), if format == BW then FILE_HEADER + PALETTE else FILE_HEADER);
    var more := FromWidth(format, width, height);
    Assoc(start, more, rest);
    FieldsFromWidth(format, width, height);
    LongBehind(start, more + rest, 0);
    LongBehind(start, more + rest, 4);
    WordBehind(start, more + rest, 10);
  }

  /** The bytes at a place in h. */
  predicate HasAt(h: seq<Byte>, at: nat, field: seq<Byte>) {
    at + |field| <= |h| && h[at..at + |field|] == field
  }

  /** What stands in front of the rest of h. */
  lemma TakeField(h: seq<Byte>, at: nat, field: seq<Byte>, rest: seq<Byte>)
    requires at <= |h| && h[at..] == field + rest
    ensures HasAt(h, at, field) && h[at + |field|..] == rest
  {
    assert h[at..][..|field|] == field && h[at..][|field|..] == rest;
  }

  lemma Letters()
    ensures WordBytes(19778) == [0x42, 0x4D]
  {
  }

  lemma FirstFields(h: seq<Byte>, size: Long, offset: Long, more: seq<Byte>)
    requires h == HeaderStart(size, offset) + more
    ensures HasAt(h, 0, [0x42, 0x4D]) && HasAt(h, 2, LongBytes(size)) && h[6..] == FromReserved(offset) + more
  {
    assert h[0..] == h;
    Letters();
    Assoc(WordBytes(19778), FromSize(size, offset), more);
    TakeField(h, 0, [0x42, 0x4D], FromSize(size, offset) + more);
    Assoc(LongBytes(size), FromReserved(offset), more);
    TakeField(h, 2, LongBytes(size), FromReserved(offset) + more);
  }

  lemma NextFields(h: seq<Byte>, offset: Long, more: seq<Byte>)
    requires |h| >= 6 && h[6..] == FromReserved(offset) + more
    ensures HasAt(h, 6, Zeros(4)) && HasAt(h, 10, LongBytes(offset)) && HasAt(h, 14, LongBytes(40)) && h[18..] == more
  {
    var a, b := LongBytes(offset), LongBytes(40);
    Assoc(Zeros(4), a + b, more);
    TakeField(h, 6, Zeros(4), a + b + more);
    Assoc(a, b, more);
    TakeField(h, 10, a, b + more);
    TakeField(h, 14, b, more);
  }

  lemma RestOfHeader(h: seq<Byte>, format: int, width: Long, height: Long)
    requires |h| >= 18 && h[18..] == FromWidth(format, width, height)
    ensures HasAt(h, 18, LongBytes(width)) && HasAt(h, 22, LongBytes(height)) && HasAt(h, 26, WordBytes(1))
    ensures HasAt(h, 28, WordBytes(Bits(format))) && HasAt(h, 30, Zeros(16))
    ensures HasAt(h, 46, LongBytes(Colours(format))) && HasAt(h, 50, Zeros(4))
  {
    TakeField(h, 18, LongBytes(width), FromHeight(format, height));
    TakeField(h, 22, LongBytes(height), FromPlanes(format));
    TakeField(h, 26, WordBytes(1), WordBytes(Bits(format)) + HeaderEnd(format));
    TakeField(h, 28, WordBytes(Bits(format)), HeaderEnd(format));
    TakeField(h, 30, Zeros(16), LongBytes(Colours(format)) + Zeros(4));
    TakeField(h, 46, LongBytes(Colours(format)), Zeros(4));
    assert Zeros(4) + [] == Zeros(4);
    TakeField(h, 50, Zeros(4), []);
  }

  /** Every field of the two headers: the letters BM, the size, where the data begin, 40 for
      the second header, the image's width, height and bits, one plane, and 256 colours for a
      grey image; all others are 0. */
  lemma HeaderLayout(format: int, width: Long, height: Long, data: nat)
    ensures var h := Header(format, width, height, data);
            && HasAt(h, 0, [0x42, 0x4D]) && HasAt(h, 2, LongBytes(SizeField(data))) && HasAt(h, 6, Zeros(4))
            && HasAt(h, 10, LongBytes(if format == BW then 54 + 1024 else 54)) && HasAt(h, 14, LongBytes(40))
            && HasAt(h, 18, LongBytes(width)) && HasAt(h, 22, LongBytes(height)) && HasAt(h, 26, WordBytes(1))
            && HasAt(h, 28, WordBytes(if format == BW then 8 else 24)) && HasAt(h, 30, Zeros(16))
            && HasAt(h, 46, LongBytes(if format == BW then 256 else 0)) && HasAt(h, 50, Zeros(4))
  {
    var h := Header(format, width, height, data);
    var offset := if format == BW then FILE_HEADER + PALETTE else FILE_HEADER;
    FirstFields(h, SizeField(data), offset, FromWidth(format, width, height));
    NextFields(h, offset, FromWidth(format, width, height));
    RestOfHeader(h, format, width, height);
  }

  /** The colour table is the grey ramp: blue, green and red of entry g are g. */
  lemma GreyRamp(g: nat)
    requires g < 256
    ensures var p := Palette();
            p[4 * g] == g && p[4 * g + 1] == g && p[4 * g + 2] == g && p[4 * g + 3] == 0
  {
  }

  lemma PixelPartners(i: nat, n: nat)
    requires 3 * i + 2 < n
    ensures Partner(3 * i, n) == 3 * i + 2 && Partner(3 * i + 1, n) == 3 * i + 1 && Partner(3 * i + 2, n) == 3 * i
  {
    assert 3 * i / 3 == i && (3 * i + 1) / 3 == i && (3 * i + 2) / 3 == i;
    assert 3 * i % 3 == 0 && (3 * i + 1) % 3 == 1 && (3 * i + 2) % 3 == 2;
  }

  lemma TailStays(i: nat, n: nat)
    requires n / 3 * 3 <= i < n
    ensures Partner(i, n) == i
  {
    assert i / 3 >= n / 3;
  }

  /** The colours of a pixel lie in the opposite order in the file; bytes after the last full
      three stay. */
  lemma BlueFirst(s: seq<Byte>, i: nat)
    ensures 3 * i + 2 < |s| ==> var r := Swapped(s);
              r[3 * i] == s[3 * i + 2] && r[3 * i + 1] == s[3 * i + 1] && r[3 * i + 2] == s[3 * i]
    ensures i < |s| && |s| / 3 * 3 <= i ==> Swapped(s)[i] == s[i]
  {
    if 3 * i + 2 < |s| { PixelPartners(i, |s|); }
    if i < |s| && |s| / 3 * 3 <= i { TailStays(i, |s|); }
  }

  lemma LaidOut(header: seq<Byte>, format: int, data: seq<Byte>)
    requires |header| == 54
    ensures var file := FileWith(header, format, data);
            && file[..54] == header
            && if format == BW then
                 |file| == 54 + 1024 + |data| && file[54..54 + 1024] == Palette() && file[54 + 1024..] == data
               else |file| == 54 + |data| && file[54..] == Swapped(data)
  {
    if format == BW {
      var rest := Palette() + data;
      assert FileWith(header, format, data)[54..] == rest && rest[..1024] == Palette() && rest[1024..] == data;
    }
  }

  /** What is in a file: the header, then the colour table and the bytes of a grey image, or
      the bytes of a colour image with each pixel's colours reversed. */
  lemma FileLayout(format: int, width: nat, height: nat, data: seq<Byte>)
    requires IsImage(format, width, height, data)
    ensures var file := FileOf(format, width, height, data);
            && |file| >= 54 && file[..54] == Header(format, width, height, |data|)
            && if format == BW then
                 |file| == 54 + 1024 + |data| && file[54..54 + 1024] == Palette() && file[54 + 1024..] == data
               else |file| == 54 + |data| && file[54..] == Swapped(data)
  {
    LaidOut(Header(format, width, height, |data|), format, data);
  }

  lemma FieldsGiveImage(file: seq<Byte>, format: int, width: nat, height: nat)
    requires |file| >= FILE_HEADER && width < 0x8000_0000 && height < 0x8000_0000 && (format == BW || format == COLOR)
    requires LongAt(file, 18) == width && LongAt(file, 22) == height && WordAt(file, 28) == Bits(format)
    ensures ReadBack(file) == Ok(ImageOf(width, height, format, Body(file, format)))
  {
  }

  /** Every image comes back from its file as it was. */
  lemma RoundTrip(format: int, width: nat, height: nat, data: seq<Byte>)
    requires IsImage(format, width, height, data)
    ensures var file := FileOf(format, width, height, data);
            |file| >= FILE_HEADER && ReadBack(file) == Ok(Image(format, width, height, data, |data|))
  {
    var rest := if format == BW then Palette() + data else Swapped(data);
    HeaderFields(format, width, height, |data|, rest);
    BodyOfFile(format, Header(format, width, height, |data|), data);
    FieldsGiveImage(FileOf(format, width, height, data), format, width, height);
    WholeImage(format, width, height, data);
  }

  /** The pixel sizes that are read: below 24 bits as grey, below 40 as colour. */
  lemma FormatsRead(bits: Word)
    ensures FormatOf(bits) == BW <==> bits < 24
    ensures FormatOf(bits) == COLOR <==> 24 <= bits < 40
  {
  }

  /** Bytes behind the image are not read, but are told by the result. */
  lemma TrailingBytes(format: int, width: nat, height: nat, data: seq<Byte>, more: seq<Byte>)
    requires IsImage(format, width, height, data) && more != []
    ensures ReadBack(FileOf(format, width, height, data) + more) == Ok(Image(format, width, height, data, -1))
  {
    var header, rest := Header(format, width, height, |data|), if format == BW then Palette() + data else Swapped(data);
    var file := FileOf(format, width, height, data) + more;
    Assoc(header, rest, more);
    HeaderFields(format, width, height, |data|, rest + more);
    FieldsGiveImage(file, format, width, height);
    BodyAndMore(format, header, data, more);
    SwappedTwice(data);
    assert (Arranged(format, data) + more)[..|data|] == Arranged(format, data);
  }

  lemma BodyAndMore(format: int, header: seq<Byte>, data: seq<Byte>, more: seq<Byte>)
    requires |header| == FILE_HEADER && (format == BW || format == COLOR)
    ensures Body(FileWith(header, format, data) + more, format) == Arranged(format, data) + more
  {
    if format == BW {
      Assoc(header, Palette(), data);
      Assoc(header + Palette(), data, more);
      assert (header + Palette()) + (data + more) == FileWith(header, format, data) + more;
    } else {
      Assoc(header, Swapped(data), more);
    }
  }

  lemma WholeImage(format: int, width: nat, height: nat, data: seq<Byte>)
    requires IsImage(format, width, height, data)
    ensures ImageOf(width, height, format, Arranged(format, data)) == Image(format, width, height, data, |data|)
  {
    SwappedTwice(data);
  }

  lemma BodyOfFile(format: int, header: seq<Byte>, data: seq<Byte>)
    requires |header| == FILE_HEADER
    ensures Body(FileWith(header, format, data), format)
         == if format == BW then data else Swapped(data)
  {
    if format == BW {
      Assoc(header, Palette(), data);
    }
  }

  // ---------- the program ----------

  method SwapInPlace(imageData: array<Byte>, n: nat)
    requires n <= imageData.Length
    modifies imageData
    ensures imageData[..n] == Swapped(old(imageData[..n])) && imageData[n..] == old(imageData[n..])
  {
    ghost var was := imageData[..];
    for i := 0 to n
      invariant imageData[..i] == Swapped(was[..i])
      invariant imageData[i..] == was[i..]
    {
      SwappedOneMore(was[..i], was[i]);
      assert was[..i + 1] == was[..i] + [was[i]];
      assert imageData[..i + 1] == Swapped(was[..i]) + [was[i]];
      if (i + 1) % 3 == 0 {
        imageData[i], imageData[i - 2] := imageData[i - 2], imageData[i];
      }
    }
  }

  method WriteImage(header: seq<Byte>, imageData: array<Byte>, format: int) returns (file: seq<Byte>)
    requires format == BW || format == COLOR
    modifies imageData
    ensures file == FileWith(header, format, old(imageData[..]))
    ensures imageData[..] == Arranged(format, old(imageData[..]))
  {
    if format == COLOR {
      SwapInPlace(imageData, imageData.Length);
      assert imageData[..imageData.Length] == imageData[..];
    }
    file := header;
    if format == BW { file := file + (Palette() + imageData[..]); }
    if format == COLOR { file := file + imageData[..]; }
  }

  /** The colours of the caller's image are swapped in place, and stay so. */
  method ConvertDataToBmp(imageData: array<Byte>, format: int, width: nat, height: nat) returns (file: seq<Byte>)
    requires IsImage(format, width, height, imageData[..])
    modifies imageData
    ensures file == FileOf(format, width, height, old(imageData[..]))
    ensures imageData[..] == Arranged(format, old(imageData[..]))
  {
    file := WriteImage(Header(format, width, height, imageData.Length), imageData, format);
  }

  method Store(imageData: array<Byte>, i: nat, c: Byte, format: int)
    requires i < imageData.Length
    modifies imageData
    ensures var r := old(imageData[..i]) + [c];
            imageData[..i + 1] == if format == COLOR then EndSwapped(r) else r
  {
    imageData[i] := c;
    assert imageData[..i + 1] == old(imageData[..i]) + [c];
    if format == COLOR {
      if (i + 1) % 3 == 0 {
        imageData[i], imageData[i - 2] := imageData[i - 2], imageData[i];
      }
    }
  }

  /** Fill imageData from the body of a file, swapping as the bytes come in. */
  method ReadBody(body: seq<Byte>, format: int, imageData: array<Byte>) returns (i: nat)
    modifies imageData
    ensures i == |body|
    ensures var n := Min(|body|, imageData.Length);
            imageData[..n] == Arranged(format, body[..n])
  {
    i := 0;
    while i < |body|
      invariant i <= |body|
      invariant var n := Min(i, imageData.Length);
                imageData[..n] == Arranged(format, body[..n])
    {
      if i < imageData.Length {
        ArrangedOneMore(format, body, i);
        Store(imageData, i, body[i], format);
      }
      i := i + 1;
    }
  }

  method ConvertBmpToDat(file: seq<Byte>) returns (r: Result<Image, BmpError>)
    requires |file| >= FILE_HEADER
    ensures r == ReadBack(file)
  {
    var width, height := SignedLong(LongAt(file, 18)), SignedLong(LongAt(file, 22));
    var format := FormatOf(WordAt(file, 28));
    if format != COLOR && format != BW { return Err(WrongFormat); }
    var len := DataSize(format, width, height);
    var imageData := new Byte[if len < 0 then 0 else len](_ => 0);
    var i := ReadBody(Body(file, format), format, imageData);
    var n := Min(i, imageData.Length);
    assert Body(file, format)[..|Body(file, format)|] == Body(file, format);
    r := Ok(Image(format, width, height, imageData[..n], if i == len then len else -1));
  }
}
