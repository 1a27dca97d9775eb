/**
  * Texture decoding of the image library: palette conversion, the checks and
  * pixel decoding of Truevision TGA files (uncompressed type 2 and run-length
  * type 10), the bounds checks of Quake .mip textures, and the texture cache
  * lookup.
  *
  * The file is a byte sequence; a read past its end, which the source's stream
  * does not report, makes the model stop with Truncated (or None) instead.
  */
module ImgLib {
  import opened Common

  datatype Rgb = Rgb(r: byte, g: byte, b: byte)
  datatype Rgba = Rgba(r: byte, g: byte, b: byte, a: byte)

  // ------------------------------------------------------------------
  // Palette conversion
  // ------------------------------------------------------------------

  /** The last palette index is the transparent colour. */
  const TRANSPARENT: byte := 255

  /** A paletted image as 32-bit colour. */
  function Paletted(pixels: seq<byte>, pal: seq<Rgb>): seq<Rgba>
    requires forall i :: 0 <= i < |pixels| ==> pixels[i] < |pal|
  {
    if pixels == [] then []
    else
      var k := |pixels| - 1;
      var c := pal[pixels[k]];
      Paletted(pixels[..k], pal) + [Rgba(c.r, c.g, c.b, if pixels[k] == TRANSPARENT then 0 else 255)]
  }

  /** Every pixel takes its colour from the palette; it is fully transparent
    * when its index is 255 and fully opaque otherwise. */
  lemma {:induction false} PalettedMeaning(pixels: seq<byte>, pal: seq<Rgb>)
    requires forall i :: 0 <= i < |pixels| ==> pixels[i] < |pal|
    ensures |Paletted(pixels, pal)| == |pixels|
    ensures forall i :: 0 <= i < |pixels| ==>
              var o, c := Paletted(pixels, pal)[i], pal[pixels[i]];
              o.r == c.r && o.g == c.g && o.b == c.b
    ensures forall i :: 0 <= i < |pixels| ==> (Paletted(pixels, pal)[i].a == 0 <==> pixels[i] == 255)
    ensures forall i :: 0 <= i < |pixels| ==> Paletted(pixels, pal)[i].a in {0, 255}
  {
    if pixels != [] {
      PalettedMeaning(pixels[..|pixels| - 1], pal);
    }
  }

  /** convert_paletted_to_32_bit: output is resized to the input and filled pixel by pixel. */
  method ConvertPalettedTo32Bit(pixels: seq<byte>, pal: seq<Rgb>) returns (output: seq<Rgba>)
    requires forall i :: 0 <= i < |pixels| ==> pixels[i] < |pal|
    ensures output == Paletted(pixels, pal)
  {
    output := [];
    for i := 0 to |pixels|
      invariant output == Paletted(pixels[..i], pal)
    {
      var c := pal[pixels[i]];
      output := output + [Rgba(c.r, c.g, c.b, if pixels[i] == 255 then 0 else 255)];
      assert pixels[..i + 1][..i] == pixels[..i];
    }
    assert pixels[..|pixels|] == pixels;
  }

  // ------------------------------------------------------------------
  // TGA header
  // ------------------------------------------------------------------

  /** targa_t, the 18-byte header of a TGA file, in file order. */
  datatype TgaHeader = TgaHeader(
    idLength: byte, colormapType: byte, imageType: byte,
    colormapIndex: nat, colormapLength: nat, colormapSize: byte,
    xOrigin: nat, yOrigin: nat, width: nat, height: nat,
    pixelSize: byte, attributes: byte)

  const TGA_HEADER_SIZE := 18

  /** A little-endian 16-bit field. */
  function U16(data: seq<byte>, at: nat): nat
    requires at + 2 <= |data|
  {
    data[at] as int + 256 * data[at + 1] as int
  }

  /** The header, or None when the file is too short to hold it. */
  function ReadTgaHeader(data: seq<byte>): Option<TgaHeader>
  {
    if |data| < TGA_HEADER_SIZE then None
    else Some(TgaHeader(data[0], data[1], data[2], U16(data, 3), U16(data, 5), data[7],
                        U16(data, 8), U16(data, 10), U16(data, 12), U16(data, 14), data[16], data[17]))
  }

  predicate Fits16(h: TgaHeader)
  {
    h.colormapIndex < 0x1_0000 && h.colormapLength < 0x1_0000 && h.xOrigin < 0x1_0000
    && h.yOrigin < 0x1_0000 && h.width < 0x1_0000 && h.height < 0x1_0000
  }

  function Le16(v: nat): seq<byte>
    requires v < 0x1_0000
  {
    [v % 256, v / 256]
  }

  /** The header as it is laid out in a file. */
  function WriteTgaHeader(h: TgaHeader): (bytes: seq<byte>)
    requires Fits16(h)
    ensures |bytes| == TGA_HEADER_SIZE
  {
    [h.idLength, h.colormapType, h.imageType] + Le16(h.colormapIndex) + Le16(h.colormapLength)
    + [h.colormapSize] + Le16(h.xOrigin) + Le16(h.yOrigin) + Le16(h.width) + Le16(h.height)
    + [h.pixelSize, h.attributes]
  }

  /** Reading a written header gives it back, whatever follows it. */
  lemma TgaHeaderRoundTrip(h: TgaHeader, rest: seq<byte>)
    requires Fits16(h)
    ensures ReadTgaHeader(WriteTgaHeader(h) + rest) == Some(h)
  {
    var d := WriteTgaHeader(h) + rest;
    assert U16(d, 3) == h.colormapIndex;
    assert U16(d, 5) == h.colormapLength;
    assert U16(d, 8) == h.xOrigin;
    assert U16(d, 10) == h.yOrigin;
    assert U16(d, 12) == h.width;
    assert U16(d, 14) == h.height;
  }

  /** The images load_tga decodes: true-colour types 2 and 10, no colour map, 24 or 32 bits per pixel. */
  predicate Accepted(h: TgaHeader)
  {
    (h.imageType == 2 || h.imageType == 10) && h.colormapType == 0 && (h.pixelSize == 32 || h.pixelSize == 24)
  }

  // ------------------------------------------------------------------
  // TGA pixel streams
  // ------------------------------------------------------------------

  /** Bytes per pixel: blue, green, red and, for 32-bit images, alpha. */
  function Bpp(alpha: bool): nat { if alpha then 4 else 3 }

  /** The pixel stored at offset p; 24-bit pixels are opaque. */
  function PixelAt(data: seq<byte>, p: nat, alpha: bool): Option<Rgba>
  {
    if p + Bpp(alpha) > |data| then None
    else Some(Rgba(data[p + 2], data[p + 1], data[p], if alpha then data[p + 3] else 255))
  }

  /** Where the decoder stands between pixels: uncompressed data (type 2), at a
    * packet header, inside a run packet that repeats px, or inside a raw packet,
    * with the pixels the packet still covers. */
  datatype Pending = Plain | Idle | Run(px: Rgba, left: nat) | Raw(left: nat)

  predicate Live(pend: Pending)
  {
    match pend
    case Run(_, left) => left >= 1
    case Raw(left) => left >= 1
    case _ => true
  }

  /** The state after one pixel of a packet. */
  function Next(pend: Pending): Pending
  {
    match pend
    case Run(px, left) => if left <= 1 then Idle else Run(px, left - 1)
    case Raw(left) => if left <= 1 then Idle else Raw(left - 1)
    case _ => pend
  }

  function Rank(pend: Pending): nat { if pend.Idle? then 1 else 0 }

  /** The rows of an image of width w, in file order, from offset p and state pend
    * on: the current row has cur so far, and h rows are still to be finished.
    * A row once full is closed and the next begins, so packets run on across
    * row ends; once the last row is full nothing more is read. None when a
    * needed byte is past the end of the file. */
  function Fill(data: seq<byte>, p: nat, pend: Pending, cur: seq<Rgba>, w: nat, h: nat, alpha: bool): Option<seq<seq<Rgba>>>
    requires |cur| <= w && Live(pend)
    decreases h, w - |cur|, Rank(pend)
  {
    if h == 0 then Some([])
    else if |cur| == w then
      match Fill(data, p, pend, [], w, h - 1, alpha)
      case None => None
      case Some(rest) => Some([cur] + rest)
    else match pend
      case Idle =>
        if p >= |data| then None
        else
          var header := data[p];
          var size := 1 + header % 128;
          if header >= 128 then
            match PixelAt(data, p + 1, alpha)
            case None => None
            case Some(px) => Fill(data, p + 1 + Bpp(alpha), Run(px, size), cur, w, h, alpha)
          else Fill(data, p + 1, Raw(size), cur, w, h, alpha)
      case Run(px, _) => Fill(data, p, Next(pend), cur + [px], w, h, alpha)
      case _ =>
        match PixelAt(data, p, alpha)
        case None => None
        case Some(px) => Fill(data, p + Bpp(alpha), Next(pend), cur + [px], w, h, alpha)
  }

  /** Rows already closed, followed by the outcome of the rest of the image. */
  function Glue(done: seq<seq<Rgba>>, rest: Option<seq<seq<Rgba>>>): Option<seq<seq<Rgba>>>
  {
    match rest
    case None => None
    case Some(g) => Some(done + g)
  }

  /** n copies of px. */
  function Repeat(px: Rgba, n: nat): (r: seq<Rgba>)
    ensures |r| == n
  {
    if n == 0 then [] else [px] + Repeat(px, n - 1)
  }

  /** n consecutive pixels from offset p, with the offset after them. */
  function Pixels(data: seq<byte>, p: nat, n: nat, alpha: bool): (r: Option<(seq<Rgba>, nat)>)
    ensures r.Some? ==> |r.value.0| == n
    decreases n
  {
    if n == 0 then Some(([], p))
    else match PixelAt(data, p, alpha)
      case None => None
      case Some(px) =>
        match Pixels(data, p + Bpp(alpha), n - 1, alpha)
        case None => None
        case Some(rest) => Some(([px] + rest.0, rest.1))
  }

  /** Every outcome of Fill is a list of h rows of width w, the first of them
    * starting with cur. */
  lemma {:induction false} FillShape(data: seq<byte>, p: nat, pend: Pending, cur: seq<Rgba>, w: nat, h: nat, alpha: bool)
    requires |cur| <= w && Live(pend)
    ensures var o := Fill(data, p, pend, cur, w, h, alpha);
            o.Some? ==> |o.value| == h && (forall i :: 0 <= i < h ==> |o.value[i]| == w)
                        && (h > 0 ==> o.value[0][..|cur|] == cur)
    decreases h, w - |cur|, Rank(pend)
  {
    if h == 0 {
    } else if |cur| == w {
      FillShape(data, p, pend, [], w, h - 1, alpha);
      var o := Fill(data, p, pend, cur, w, h, alpha);
      if o.Some? {
        var rest := Fill(data, p, pend, [], w, h - 1, alpha).value;
        assert o.value == [cur] + rest;
        forall i | 0 <= i < h
          ensures |o.value[i]| == w
        {
          if i > 0 {
            assert o.value[i] == rest[i - 1];
          }
        }
      }
    } else {
      match pend
      case Idle =>
        if p < |data| {
          var header := data[p];
          if header >= 128 {
            if PixelAt(data, p + 1, alpha).Some? {
              FillShape(data, p + 1 + Bpp(alpha), Run(PixelAt(data, p + 1, alpha).value, 1 + header % 128), cur, w, h, alpha);
            }
          } else {
            FillShape(data, p + 1, Raw(1 + header % 128), cur, w, h, alpha);
          }
        }
      case Run(px, _) =>
        FillShape(data, p, Next(pend), cur + [px], w, h, alpha);
        var o := Fill(data, p, pend, cur, w, h, alpha);
        if o.Some? {
          assert o.value[0][..|cur|] == o.value[0][..|cur| + 1][..|cur|];
        }
      case _ =>
        var px := PixelAt(data, p, alpha);
        if px.Some? {
          FillShape(data, p + Bpp(alpha), Next(pend), cur + [px.value], w, h, alpha);
          var o := Fill(data, p, pend, cur, w, h, alpha);
          if o.Some? {
            assert o.value[0][..|cur|] == o.value[0][..|cur| + 1][..|cur|];
          }
        }
    }
  }

  /** A run packet that fits in what is left of the row repeats its pixel exactly
    * left times and then reads the next packet header. */
  lemma {:induction false} RunPacket(data: seq<byte>, p: nat, px: Rgba, left: nat, cur: seq<Rgba>, w: nat, h: nat, alpha: bool)
    requires 1 <= left && |cur| + left <= w && h >= 1
    ensures Fill(data, p, Run(px, left), cur, w, h, alpha) == Fill(data, p, Idle, cur + Repeat(px, left), w, h, alpha)
    decreases left
  {
    assert cur + Repeat(px, left) == (cur + [px]) + Repeat(px, left - 1);
    if left > 1 {
      RunPacket(data, p, px, left - 1, cur + [px], w, h, alpha);
    } else {
      assert Repeat(px, 0) == [];
      assert cur + Repeat(px, 1) == cur + [px];
    }
  }

  /** A run packet longer than what is left of the row fills the row and goes on
    * in the next one. */
  lemma {:induction false} RunAcross(data: seq<byte>, p: nat, px: Rgba, left: nat, cur: seq<Rgba>, w: nat, h: nat, alpha: bool)
    requires |cur| < w && left > w - |cur| && h >= 1
    ensures Fill(data, p, Run(px, left), cur, w, h, alpha)
            == Glue([cur + Repeat(px, w - |cur|)], Fill(data, p, Run(px, left - (w - |cur|)), [], w, h - 1, alpha))
    decreases w - |cur|
  {
    assert cur + Repeat(px, w - |cur|) == (cur + [px]) + Repeat(px, w - |cur| - 1);
    if |cur| + 1 < w {
      RunAcross(data, p, px, left - 1, cur + [px], w, h, alpha);
    } else {
      assert Repeat(px, 0) == [];
      assert cur + Repeat(px, 1) == cur + [px];
      assert Fill(data, p, Run(px, left), cur, w, h, alpha) == Fill(data, p, Run(px, left - 1), cur + [px], w, h, alpha);
    }
  }

  /** A raw packet that fits in what is left of the row reads exactly left
    * pixels and then the next packet header. */
  lemma {:induction false} RawPacket(data: seq<byte>, p: nat, left: nat, cur: seq<Rgba>, w: nat, h: nat, alpha: bool)
    requires 1 <= left && |cur| + left <= w && h >= 1
    ensures Fill(data, p, Raw(left), cur, w, h, alpha)
            == match Pixels(data, p, left, alpha)
               case None => None
               case Some(r) => Fill(data, r.1, Idle, cur + r.0, w, h, alpha)
    decreases left
  {
    var px := PixelAt(data, p, alpha);
    if px.Some? {
      if left > 1 {
        RawPacket(data, p + Bpp(alpha), left - 1, cur + [px.value], w, h, alpha);
        var rest := Pixels(data, p + Bpp(alpha), left - 1, alpha);
        if rest.Some? {
          assert cur + ([px.value] + rest.value.0) == (cur + [px.value]) + rest.value.0;
        }
      } else {
        assert Pixels(data, p + Bpp(alpha), 0, alpha) == Some(([], p + Bpp(alpha)));
        assert [px.value] + [] == [px.value];
        assert cur + [px.value] == cur + Pixels(data, p, 1, alpha).value.0;
      }
    }
  }

  /** In an uncompressed image every row is the next w pixels of the file. */
  lemma {:induction false} PlainRow(data: seq<byte>, p: nat, cur: seq<Rgba>, w: nat, h: nat, alpha: bool)
    requires |cur| <= w && h >= 1
    ensures Fill(data, p, Plain, cur, w, h, alpha)
            == match Pixels(data, p, w - |cur|, alpha)
               case None => None
               case Some(r) => Glue([cur + r.0], Fill(data, r.1, Plain, [], w, h - 1, alpha))
    decreases w - |cur|
  {
    if |cur| == w {
      assert cur + [] == cur;
    } else {
      var px := PixelAt(data, p, alpha);
      if px.Some? {
        PlainRow(data, p + Bpp(alpha), cur + [px.value], w, h, alpha);
        var rest := Pixels(data, p + Bpp(alpha), w - |cur| - 1, alpha);
        if rest.Some? {
          assert cur + ([px.value] + rest.value.0) == (cur + [px.value]) + rest.value.0;
        }
      }
    }
  }

  /** In a 24-bit image every pixel is opaque. */
  lemma {:induction false} FillOpaque(data: seq<byte>, p: nat, pend: Pending, cur: seq<Rgba>, w: nat, h: nat)
    requires |cur| <= w && Live(pend)
    requires forall c :: 0 <= c < |cur| ==> cur[c].a == 255
    requires pend.Run? ==> pend.px.a == 255
    ensures var o := Fill(data, p, pend, cur, w, h, false);
            o.Some? ==> forall i, c :: 0 <= i < |o.value| && 0 <= c < |o.value[i]| ==> o.value[i][c].a == 255
    decreases h, w - |cur|, Rank(pend)
  {
    if h == 0 {
    } else if |cur| == w {
      FillOpaque(data, p, pend, [], w, h - 1);
      var o := Fill(data, p, pend, cur, w, h, false);
      if o.Some? {
        var rest := Fill(data, p, pend, [], w, h - 1, false).value;
        assert o.value == [cur] + rest;
        forall i, c | 0 <= i < |o.value| && 0 <= c < |o.value[i]|
          ensures o.value[i][c].a == 255
        {
          if i > 0 {
            assert o.value[i] == rest[i - 1];
          }
        }
      }
    } else {
      match pend
      case Idle =>
        if p < |data| {
          var header := data[p];
          if header >= 128 {
            var px := PixelAt(data, p + 1, false);
            if px.Some? {
              FillOpaque(data, p + 4, Run(px.value, 1 + header % 128), cur, w, h);
              assert Fill(data, p, pend, cur, w, h, false) == Fill(data, p + 4, Run(px.value, 1 + header % 128), cur, w, h, false);
            } else {
              assert Fill(data, p, pend, cur, w, h, false) == None;
            }
          } else {
            FillOpaque(data, p + 1, Raw(1 + header % 128), cur, w, h);
            assert Fill(data, p, pend, cur, w, h, false) == Fill(data, p + 1, Raw(1 + header % 128), cur, w, h, false);
          }
        }
      case Run(px, _) =>
        FillOpaque(data, p, Next(pend), cur + [px], w, h);
      case _ =>
        var px := PixelAt(data, p, false);
        if px.Some? {
          FillOpaque(data, p + 3, Next(pend), cur + [px.value], w, h);
        } else {
          assert Fill(data, p, pend, cur, w, h, false) == None;
        }
    }
  }

  // ------------------------------------------------------------------
  // TGA decoding into the pixel array
  // ------------------------------------------------------------------

  /** The decoding so far matches the image: the rows closed so far, then the
    * rest of the image from offset p, state pend and current row cur. */
  ghost predicate Tracks(img: Option<seq<seq<Rgba>>>, done: seq<seq<Rgba>>, data: seq<byte>, p: nat, pend: Pending,
                         cur: seq<Rgba>, w: nat, rows: nat, alpha: bool)
  {
    |done| <= rows && |cur| <= w && Live(pend) && img == Glue(done, Fill(data, p, pend, cur, w, rows - |done|, alpha))
  }

  /** One step of the decoder emits px and moves to offset p'. */
  ghost predicate Emits(data: seq<byte>, p: nat, pend: Pending, alpha: bool, px: Rgba, p': nat)
  {
    match pend
    case Run(q, _) => px == q && p' == p
    case Idle => false
    case _ => PixelAt(data, p, alpha) == Some(px) && p' == p + Bpp(alpha)
  }

  lemma GlueAssoc(done: seq<seq<Rgba>>, row: seq<Rgba>, rest: Option<seq<seq<Rgba>>>)
    ensures Glue(done, Glue([row], rest)) == Glue(done + [row], rest)
  {
    if rest.Some? {
      assert done + ([row] + rest.value) == (done + [row]) + rest.value;
    }
  }

  lemma GlueEmpty(rest: Option<seq<seq<Rgba>>>)
    ensures Glue([], rest) == rest
  {
    if rest.Some? {
      assert [] + rest.value == rest.value;
    }
  }

  /** A pixel emitted: it extends the current row, closing it when it is full. */
  lemma Advance(img: Option<seq<seq<Rgba>>>, done: seq<seq<Rgba>>, data: seq<byte>, p: nat, pend: Pending,
                cur: seq<Rgba>, w: nat, rows: nat, alpha: bool, px: Rgba, p': nat)
    requires Tracks(img, done, data, p, pend, cur, w, rows, alpha)
    requires |done| < rows && |cur| < w && Emits(data, p, pend, alpha, px, p')
    ensures |cur| + 1 < w ==> Tracks(img, done, data, p', Next(pend), cur + [px], w, rows, alpha)
    ensures |cur| + 1 == w ==> Tracks(img, done + [cur + [px]], data, p', Next(pend), [], w, rows, alpha)
  {
    var h := rows - |done|;
    assert Fill(data, p, pend, cur, w, h, alpha) == Fill(data, p', Next(pend), cur + [px], w, h, alpha);
    if |cur| + 1 == w {
      assert Fill(data, p', Next(pend), cur + [px], w, h, alpha)
          == Glue([cur + [px]], Fill(data, p', Next(pend), [], w, h - 1, alpha));
      GlueAssoc(done, cur + [px], Fill(data, p', Next(pend), [], w, h - 1, alpha));
    }
  }

  /** A packet header read: a run packet reads its one pixel, a raw packet
    * nothing yet. */
  lemma Header(img: Option<seq<seq<Rgba>>>, done: seq<seq<Rgba>>, data: seq<byte>, p: nat,
               cur: seq<Rgba>, w: nat, rows: nat, alpha: bool)
    requires Tracks(img, done, data, p, Idle, cur, w, rows, alpha)
    requires |done| < rows && |cur| < w
    ensures p >= |data| ==> img == None
    ensures p < |data| && data[p] >= 128 ==>
              match PixelAt(data, p + 1, alpha)
              case None => img == None
              case Some(px) => Tracks(img, done, data, p + 1 + Bpp(alpha), Run(px, 1 + data[p] % 128), cur, w, rows, alpha)
    ensures p < |data| && data[p] < 128 ==> Tracks(img, done, data, p + 1, Raw(1 + data[p] % 128), cur, w, rows, alpha)
  {
  }

  /** The decoded rows are in the array, the first in the file at the bottom. */
  ghost predicate Shows(out: array2<Rgba>, done: seq<seq<Rgba>>, cur: seq<Rgba>)
    reads out
  {
    && |done| <= out.Length0 && |cur| <= out.Length1
    && (|done| == out.Length0 ==> cur == [])
    && (forall i :: 0 <= i < |done| ==> |done[i]| == out.Length1)
    && (forall i, c :: 0 <= i < |done| && 0 <= c < out.Length1 ==> out[out.Length0 - 1 - i, c] == done[i][c])
    && (forall c :: 0 <= c < |cur| ==> out[out.Length0 - 1 - |done|, c] == cur[c])
  }

  /** Where the pixel pointer stands: row and column of the next pixel, or the
    * image is complete. */
  ghost predicate At(out: array2<Rgba>, done: seq<seq<Rgba>>, cur: seq<Rgba>, row: int, column: int, finished: bool)
    reads out
  {
    if finished then |done| == out.Length0 && cur == []
    else 0 <= row && row == out.Length0 - 1 - |done| && column == |cur| < out.Length1
  }

  /** *pixbuf++ = px: the pixel written at the pointer, closing the row when
    * it is the last one of it. */
  method Put(out: array2<Rgba>, px: Rgba, row: int, column: int, ghost done: seq<seq<Rgba>>, ghost cur: seq<Rgba>)
    returns (ghost done': seq<seq<Rgba>>, ghost cur': seq<Rgba>)
    requires Shows(out, done, cur) && At(out, done, cur, row, column, false)
    modifies out
    ensures Shows(out, done', cur')
    ensures column + 1 < out.Length1 ==> done' == done && cur' == cur + [px]
    ensures column + 1 == out.Length1 ==> done' == done + [cur + [px]] && cur' == []
  {
    out[row, column] := px;
    if column + 1 == out.Length1 {
      done', cur' := done + [cur + [px]], [];
    } else {
      done', cur' := done, cur + [px];
    }
  }

  /** *pixbuf++ = px and column++, and at the end of a row the move to the row
    * below it, or the end of decoding after the top row (the goto breakOut). */
  method Emit(out: array2<Rgba>, px: Rgba, row: int, column: int, ghost done: seq<seq<Rgba>>, ghost cur: seq<Rgba>)
    returns (row': int, column': int, finished: bool, ghost done': seq<seq<Rgba>>, ghost cur': seq<Rgba>)
    requires Shows(out, done, cur) && At(out, done, cur, row, column, false)
    modifies out
    ensures Shows(out, done', cur') && At(out, done', cur', row', column', finished)
    ensures |cur| + 1 < out.Length1 ==> done' == done && cur' == cur + [px] && !finished
    ensures |cur| + 1 == out.Length1 ==> done' == done + [cur + [px]] && cur' == []
    ensures finished ==> row' == 0
    ensures !finished ==> row' < row || (row' == row && column' > column)
  {
    done', cur' := Put(out, px, row, column, done, cur);
    row', column', finished := row, column + 1, false;
    if column' == out.Length1 {
      column' := 0;
      if row > 0 {
        row' := row - 1;
      } else {
        finished := true;
      }
    }
  }

  /** The whole image is in the array, its first row at the bottom. */
  ghost predicate Decoded(out: array2<Rgba>, img: seq<seq<Rgba>>)
    reads out
  {
    && |img| == out.Length0
    && (forall i :: 0 <= i < |img| ==> |img[i]| == out.Length1)
    && (forall i, c :: 0 <= i < |img| && 0 <= c < out.Length1 ==> out[out.Length0 - 1 - i, c] == img[i][c])
  }

  /** A row of width zero closes at once. */
  lemma CloseEmpty(img: Option<seq<seq<Rgba>>>, done: seq<seq<Rgba>>, data: seq<byte>, p: nat, pend: Pending,
                   rows: nat, alpha: bool)
    requires Tracks(img, done, data, p, pend, [], 0, rows, alpha) && |done| < rows
    ensures Tracks(img, done + [[]], data, p, pend, [], 0, rows, alpha)
  {
    GlueAssoc(done, [], Fill(data, p, pend, [], 0, rows - |done| - 1, alpha));
  }

  /** A pixel the data does not hold: the image cannot be decoded. */
  lemma ShortRead(img: Option<seq<seq<Rgba>>>, done: seq<seq<Rgba>>, data: seq<byte>, p: nat, pend: Pending,
                  cur: seq<Rgba>, w: nat, rows: nat, alpha: bool)
    requires Tracks(img, done, data, p, pend, cur, w, rows, alpha) && (pend.Raw? || pend.Plain?)
    requires |done| < rows && |cur| < w && PixelAt(data, p, alpha).None?
    ensures img == None
  {
  }

  /** Once every row is closed, what is left pending does not matter. */
  lemma Complete(img: Option<seq<seq<Rgba>>>, done: seq<seq<Rgba>>, data: seq<byte>, p: nat, pend: Pending,
                 w: nat, rows: nat, alpha: bool)
    requires Tracks(img, done, data, p, pend, [], w, rows, alpha) && |done| == rows
    ensures img == Some(done) && Tracks(img, done, data, p, Idle, [], w, rows, alpha)
  {
    assert done + [] == done;
  }

  /** An uncompressed (type 2) image: rows from the bottom up, each read left to right. */
  method DecodeUncompressed(data: seq<byte>, p0: nat, alpha: bool, out: array2<Rgba>) returns (ok: bool)
    modifies out
    ensures var img := Fill(data, p0, Plain, [], out.Length1, out.Length0, alpha);
            ok == img.Some? && (ok ==> Decoded(out, img.value))
  {
    var rows, columns := out.Length0, out.Length1;
    ghost var img := Fill(data, p0, Plain, [], columns, rows, alpha);
    ghost var done: seq<seq<Rgba>> := [];
    var p: nat := p0;
    var row := rows - 1;
    GlueEmpty(img);
    while row >= 0
      invariant -1 <= row < rows && |done| == rows - 1 - row
      invariant Tracks(img, done, data, p, Plain, [], columns, rows, alpha) && Shows(out, done, [])
    {
      ghost var cur: seq<Rgba> := [];
      if columns == 0 {
        CloseEmpty(img, done, data, p, Plain, rows, alpha);
        done := done + [[]];
      }
      var column := 0;
      while column < columns
        invariant 0 <= column <= columns
        invariant column < columns ==> |done| == rows - 1 - row && |cur| == column
        invariant column == columns ==> |done| == rows - row && cur == []
        invariant Tracks(img, done, data, p, Plain, cur, columns, rows, alpha) && Shows(out, done, cur)
      {
        var px := PixelAt(data, p, alpha);
        if px.None? {
          ShortRead(img, done, data, p, Plain, cur, columns, rows, alpha);
          return false;
        }
        Advance(img, done, data, p, Plain, cur, columns, rows, alpha, px.value, p + Bpp(alpha));
        done, cur := Put(out, px.value, row, column, done, cur);
        p := p + Bpp(alpha);
        column := column + 1;
      }
      row := row - 1;
    }
    Complete(img, done, data, p, Plain, columns, rows, alpha);
    ok := true;
  }

  /** The pending state after j pixels of a run of size pixels. */
  function RunLeft(px: Rgba, size: nat, j: nat): Pending
  {
    if j >= size then Idle else Run(px, size - j)
  }

  /** The pixels of a run packet, wrapping from row to row. */
  method RunPixels(out: array2<Rgba>, px: Rgba, size: nat, row: int, column: int, ghost img: Option<seq<seq<Rgba>>>,
                   ghost data: seq<byte>, ghost p: nat, ghost alpha: bool, ghost done: seq<seq<Rgba>>, ghost cur: seq<Rgba>)
    returns (row': int, column': int, finished: bool, ghost done': seq<seq<Rgba>>, ghost cur': seq<Rgba>)
    requires 1 <= size && Shows(out, done, cur) && At(out, done, cur, row, column, false)
    requires Tracks(img, done, data, p, Run(px, size), cur, out.Length1, out.Length0, alpha)
    modifies out
    ensures Shows(out, done', cur') && At(out, done', cur', row', column', finished)
    ensures Tracks(img, done', data, p, Idle, cur', out.Length1, out.Length0, alpha)
    ensures finished ==> row' == 0
    ensures !finished ==> row' < row || (row' == row && column' > column)
  {
    row', column', finished, done', cur' := row, column, false, done, cur;
    var j := 0;
    while j < size && !finished
      invariant 0 <= j <= size && (j == 0 ==> row' == row && column' == column && !finished)
      invariant Shows(out, done', cur') && At(out, done', cur', row', column', finished)
      invariant Tracks(img, done', data, p, RunLeft(px, size, j), cur', out.Length1, out.Length0, alpha)
      invariant finished ==> row' == 0
      invariant j > 0 && !finished ==> row' < row || (row' == row && column' > column)
    {
      Advance(img, done', data, p, RunLeft(px, size, j), cur', out.Length1, out.Length0, alpha, px, p);
      row', column', finished, done', cur' := Emit(out, px, row', column', done', cur');
      j := j + 1;
    }
    if finished {
      Complete(img, done', data, p, RunLeft(px, size, j), out.Length1, out.Length0, alpha);
    }
  }

  /** The pending state after j pixels of a raw packet of size pixels. */
  function RawLeft(size: nat, j: nat): Pending
  {
    if j >= size then Idle else Raw(size - j)
  }

  /** The pixels of a raw packet, each read from the data, wrapping from row to row. */
  method RawPixels(data: seq<byte>, p: nat, alpha: bool, out: array2<Rgba>, size: nat, row: int, column: int,
                   ghost img: Option<seq<seq<Rgba>>>, ghost done: seq<seq<Rgba>>, ghost cur: seq<Rgba>)
    returns (ok: bool, p': nat, row': int, column': int, finished: bool, ghost done': seq<seq<Rgba>>, ghost cur': seq<Rgba>)
    requires 1 <= size && Shows(out, done, cur) && At(out, done, cur, row, column, false)
    requires Tracks(img, done, data, p, Raw(size), cur, out.Length1, out.Length0, alpha)
    modifies out
    ensures !ok ==> img == None
    ensures ok ==> Shows(out, done', cur') && At(out, done', cur', row', column', finished)
    ensures ok ==> Tracks(img, done', data, p', Idle, cur', out.Length1, out.Length0, alpha)
    ensures ok && finished ==> row' == 0
    ensures ok && !finished ==> row' < row || (row' == row && column' > column)
  {
    p', row', column', finished, done', cur' := p, row, column, false, done, cur;
    var j := 0;
    while j < size && !finished
      invariant 0 <= j <= size && (j == 0 ==> row' == row && column' == column && !finished)
      invariant Shows(out, done', cur') && At(out, done', cur', row', column', finished)
      invariant Tracks(img, done', data, p', RawLeft(size, j), cur', out.Length1, out.Length0, alpha)
      invariant finished ==> row' == 0
      invariant j > 0 && !finished ==> row' < row || (row' == row && column' > column)
    {
      var px := PixelAt(data, p', alpha);
      if px.None? {
        ShortRead(img, done', data, p', RawLeft(size, j), cur', out.Length1, out.Length0, alpha);
        return false, p', row', column', finished, done', cur';
      }
      Advance(img, done', data, p', RawLeft(size, j), cur', out.Length1, out.Length0, alpha, px.value, p' + Bpp(alpha));
      row', column', finished, done', cur' := Emit(out, px.value, row', column', done', cur');
      p' := p' + Bpp(alpha);
      j := j + 1;
    }
    if finished {
      Complete(img, done', data, p', RawLeft(size, j), out.Length1, out.Length0, alpha);
    }
    ok := true;
  }

  /** One packet: its header byte, then a run of one pixel or size pixels read raw. */
  method Packet(data: seq<byte>, p: nat, alpha: bool, out: array2<Rgba>, row: int, column: int,
                ghost img: Option<seq<seq<Rgba>>>, ghost done: seq<seq<Rgba>>, ghost cur: seq<Rgba>)
    returns (ok: bool, p': nat, row': int, column': int, finished: bool, ghost done': seq<seq<Rgba>>, ghost cur': seq<Rgba>)
    requires Shows(out, done, cur) && At(out, done, cur, row, column, false)
    requires Tracks(img, done, data, p, Idle, cur, out.Length1, out.Length0, alpha)
    modifies out
    ensures !ok ==> img == None
    ensures ok ==> Shows(out, done', cur') && At(out, done', cur', row', column', finished)
    ensures ok ==> Tracks(img, done', data, p', Idle, cur', out.Length1, out.Length0, alpha)
    ensures ok && finished ==> row' == 0
    ensures ok && !finished ==> row' < row || (row' == row && column' > column)
  {
    Header(img, done, data, p, cur, out.Length1, out.Length0, alpha);
    if p >= |data| {
      return false, p, row, column, false, done, cur;
    }
    var packetHeader := data[p];
    var packetSize := 1 + packetHeader % 128;
    if packetHeader >= 128 {
      var px := PixelAt(data, p + 1, alpha);
      if px.None? {
        return false, p, row, column, false, done, cur;
      }
      p' := p + 1 + Bpp(alpha);
      row', column', finished, done', cur' := RunPixels(out, px.value, packetSize, row, column, img, data, p', alpha, done, cur);
      ok := true;
    } else {
      ok, p', row', column', finished, done', cur' := RawPixels(data, p + 1, alpha, out, packetSize, row, column, img, done, cur);
    }
  }

  /** A run-length encoded (type 10) image: packets until the top row is full. */
  method DecodeRunLength(data: seq<byte>, p0: nat, alpha: bool, out: array2<Rgba>) returns (ok: bool)
    modifies out
    ensures var img := Fill(data, p0, Idle, [], out.Length1, out.Length0, alpha);
            ok == img.Some? && (ok ==> Decoded(out, img.value))
  {
    var rows, columns := out.Length0, out.Length1;
    ghost var img := Fill(data, p0, Idle, [], columns, rows, alpha);
    ghost var done: seq<seq<Rgba>> := [];
    ghost var cur: seq<Rgba> := [];
    var p: nat := p0;
    var row := rows - 1;
    GlueEmpty(img);
    while row >= 0
      invariant -1 <= row < rows && |done| == rows - 1 - row && cur == []
      invariant Tracks(img, done, data, p, Idle, [], columns, rows, alpha) && Shows(out, done, [])
    {
      if columns == 0 {
        CloseEmpty(img, done, data, p, Idle, rows, alpha);
        done := done + [[]];
      }
      var column := 0;
      var finished := false;
      while column < columns && !finished
        invariant !finished ==> 0 <= column
        invariant columns > 0 ==> At(out, done, cur, row, column, finished) && (finished ==> row == 0)
        invariant columns == 0 ==> |done| == rows - row && cur == [] && !finished
        invariant Tracks(img, done, data, p, Idle, cur, columns, rows, alpha) && Shows(out, done, cur)
        decreases if finished then 0 else 1, row, columns - column
      {
        var more;
        more, p, row, column, finished, done, cur := Packet(data, p, alpha, out, row, column, img, done, cur);
        if !more {
          return false;
        }
      }
      row := row - 1;
    }
    Complete(img, done, data, p, Idle, columns, rows, alpha);
    ok := true;
  }

  // ------------------------------------------------------------------
  // load_tga
  // ------------------------------------------------------------------

  /** Why load_tga gives no image, or that it gives one. */
  datatype TgaStatus = Rejected | Truncated | Loaded

  /** The image a TGA file holds after its header and image comment, rows in file order. */
  function TgaImage(data: seq<byte>, hd: TgaHeader): Option<seq<seq<Rgba>>>
  {
    Fill(data, TGA_HEADER_SIZE + hd.idLength, if hd.imageType == 2 then Plain else Idle, [],
         hd.width, hd.height, hd.pixelSize == 32)
  }

  /** load_tga: the header checks, then (unless only the metadata is wanted) the
    * pixels decoded into a width x height array whose row 0 is the top row. */
  method LoadTga(data: seq<byte>, metaOnly: bool) returns (status: TgaStatus, width: nat, height: nat, pixels: array2<Rgba>)
    ensures fresh(pixels)
    ensures match ReadTgaHeader(data)
            case None => status == Truncated
            case Some(hd) =>
              if !Accepted(hd) then status == Rejected
              else
                && width == hd.width && height == hd.height
                && (metaOnly ==> status == Loaded && pixels.Length0 == 0)
                && (!metaOnly ==>
                      && pixels.Length0 == height && pixels.Length1 == width
                      && (status == Loaded <==> TgaImage(data, hd).Some?)
                      && (status == Loaded ==> Decoded(pixels, TgaImage(data, hd).value))
                      && (status != Loaded ==> status == Truncated))
  {
    pixels := new Rgba[0, 0];
    width, height := 0, 0;
    var header := ReadTgaHeader(data);
    if header.None? {
      return Truncated, width, height, pixels;
    }
    var hd := header.value;
    if hd.imageType != 2 && hd.imageType != 10 {
      return Rejected, width, height, pixels;
    }
    if hd.colormapType != 0 || (hd.pixelSize != 32 && hd.pixelSize != 24) {
      return Rejected, width, height, pixels;
    }
    width, height := hd.width, hd.height;
    status := Loaded;
    if !metaOnly {
      pixels := new Rgba[height, width]((r, c) => Rgba(0, 0, 0, 0));
      var start := TGA_HEADER_SIZE + hd.idLength;
      var ok;
      if hd.imageType == 2 {
        ok := DecodeUncompressed(data, start, hd.pixelSize == 32, pixels);
      } else {
        ok := DecodeRunLength(data, start, hd.pixelSize == 32, pixels);
      }
      if !ok {
        status := Truncated;
      }
    }
  }

  /** A 24-bit TGA image has height rows of width pixels, all opaque. */
  lemma TgaOpaque(data: seq<byte>, hd: TgaHeader)
    requires Accepted(hd) && hd.pixelSize == 24 && TgaImage(data, hd).Some?
    ensures var g := TgaImage(data, hd).value;
            && |g| == hd.height && (forall i :: 0 <= i < |g| ==> |g[i]| == hd.width)
            && (forall i, c :: 0 <= i < |g| && 0 <= c < |g[i]| ==> g[i][c].a == 255)
  {
    var pend := if hd.imageType == 2 then Plain else Idle;
    FillShape(data, TGA_HEADER_SIZE + hd.idLength, pend, [], hd.width, hd.height, false);
    FillOpaque(data, TGA_HEADER_SIZE + hd.idLength, pend, [], hd.width, hd.height);
  }

  /** Decoding stops when the top row is full: bytes after the image are never read. */
  lemma {:induction false} FillIgnoresTail(data: seq<byte>, more: seq<byte>, p: nat, pend: Pending, cur: seq<Rgba>,
                                           w: nat, h: nat, alpha: bool)
    requires |cur| <= w && Live(pend) && Fill(data, p, pend, cur, w, h, alpha).Some?
    ensures Fill(data + more, p, pend, cur, w, h, alpha) == Fill(data, p, pend, cur, w, h, alpha)
    decreases h, w - |cur|, Rank(pend)
  {
    if h == 0 {
    } else if |cur| == w {
      FillIgnoresTail(data, more, p, pend, [], w, h - 1, alpha);
    } else {
      match pend
      case Idle =>
        assert p < |data|;
        assert (data + more)[p] == data[p];
        var size := 1 + data[p] % 128;
        if data[p] >= 128 {
          var px := PixelAt(data, p + 1, alpha);
          assert px.Some?;
          assert PixelAt(data + more, p + 1, alpha) == px;
          FillIgnoresTail(data, more, p + 1 + Bpp(alpha), Run(px.value, size), cur, w, h, alpha);
        } else {
          FillIgnoresTail(data, more, p + 1, Raw(size), cur, w, h, alpha);
        }
      case Run(px, _) =>
        FillIgnoresTail(data, more, p, Next(pend), cur + [px], w, h, alpha);
      case _ =>
        var px := PixelAt(data, p, alpha);
        assert px.Some?;
        assert PixelAt(data + more, p, alpha) == px;
        FillIgnoresTail(data, more, p + Bpp(alpha), Next(pend), cur + [px.value], w, h, alpha);
    }
  }

  // ------------------------------------------------------------------
  // load_mip
  // ------------------------------------------------------------------

  /** A texture: its name and size, and its pixels row by row (none when only
    * the metadata was loaded or the pixel data was out of range). */
  datatype Texture = Texture(name: string, width: nat, height: nat, pixels: seq<Rgba>)

  /** The Quake mip header: a 16-byte name, width, height and four mip offsets. */
  const DMIPTEX_SIZE := 40
  const TWO_32 := 0x1_0000_0000

  /** A little-endian unsigned 32-bit field. */
  function U32(data: seq<byte>, at: nat): nat
    requires at + 4 <= |data|
  {
    data[at] as int + 0x100 * data[at + 1] as int + 0x1_0000 * data[at + 2] as int + 0x100_0000 * data[at + 3] as int
  }

  /** A little-endian signed 32-bit field. */
  function S32(data: seq<byte>, at: nat): int
    requires at + 4 <= |data|
  {
    var u := U32(data, at);
    if u >= 0x8000_0000 then u - TWO_32 else u
  }

  /** n bytes read from offset off into a zero-filled buffer: what lies past
    * the end of the data stays zero. */
  function ReadPadded(data: seq<byte>, off: nat, n: nat): (r: seq<byte>)
    ensures |r| == n
  {
    seq(n, k => if 0 <= k && off + k < |data| then data[off + k] else 0)
  }

  /** load_mip as written: the overrun check and the buffer size are computed in
    * 32-bit unsigned arithmetic. */
  function LoadMipAsWritten(name: string, data: seq<byte>, metaOnly: bool, pal: seq<Rgb>): Option<Texture>
    requires |pal| == 256
  {
    if |data| < DMIPTEX_SIZE then None
    else
      var w, h, off0 := U32(data, 16), U32(data, 20), S32(data, 24);
      var tex := Texture(name, w, h, []);
      if metaOnly || off0 <= 0 then Some(tex)
      else
        var count := (w * h) % TWO_32;
        if (off0 + count) % TWO_32 > |data| then Some(tex)
        else Some(tex.(pixels := Paletted(ReadPadded(data, off0, count), pal)))
  }

  /** load_mip: None when the header is incomplete; the texture without pixels
    * when only metadata is wanted, offset 0 is not positive or the first mip
    * level runs past the end of the data; otherwise its w * h palette indices
    * converted to colour. */
  function LoadMip(name: string, data: seq<byte>, metaOnly: bool, pal: seq<Rgb>): Option<Texture>
    requires |pal| == 256
  {
    if |data| < DMIPTEX_SIZE then None
    else
      var w, h, off0 := U32(data, 16), U32(data, 20), S32(data, 24);
      var tex := Texture(name, w, h, []);
      if metaOnly || off0 <= 0 || off0 + w * h > |data| then Some(tex)
      else Some(tex.(pixels := Paletted(data[off0..off0 + w * h], pal)))
  }

  /** What load_mip gives: the header's size under the given name, and pixels
    * only when the first mip level lies inside the data, one per palette index
    * there, transparent exactly where the index is 255. */
  lemma LoadMipMeaning(name: string, data: seq<byte>, metaOnly: bool, pal: seq<Rgb>)
    requires |pal| == 256
    ensures LoadMip(name, data, metaOnly, pal).None? <==> |data| < DMIPTEX_SIZE
    ensures match LoadMip(name, data, metaOnly, pal)
            case None => true
            case Some(t) =>
              var off0 := S32(data, 24);
              && t.name == name && t.width == U32(data, 16) && t.height == U32(data, 20)
              && (t.pixels != [] ==> !metaOnly && 0 < off0 && off0 + t.width * t.height <= |data|)
              && (!metaOnly && 0 < off0 && off0 + t.width * t.height <= |data| ==>
                    && |t.pixels| == t.width * t.height
                    && forall i :: 0 <= i < |t.pixels| ==>
                         && t.pixels[i].r == pal[data[off0 + i]].r
                         && t.pixels[i].g == pal[data[off0 + i]].g
                         && t.pixels[i].b == pal[data[off0 + i]].b
                         && (t.pixels[i].a == 0 <==> data[off0 + i] == TRANSPARENT))
  {
    if |data| >= DMIPTEX_SIZE {
      var w, h, off0 := U32(data, 16), U32(data, 20), S32(data, 24);
      if !metaOnly && 0 < off0 && off0 + w * h <= |data| {
        var idx := data[off0..off0 + w * h];
        PalettedMeaning(idx, pal);
        assert forall i :: 0 <= i < |idx| ==> idx[i] == data[off0 + i];
      }
    }
  }

  /** Without 32-bit wrap-around the check as written is the intended one. */
  lemma LoadMipAgrees(name: string, data: seq<byte>, metaOnly: bool, pal: seq<Rgb>)
    requires |pal| == 256 && |data| < TWO_32
    requires |data| >= DMIPTEX_SIZE ==> S32(data, 24) + U32(data, 16) * U32(data, 20) < TWO_32
    ensures LoadMipAsWritten(name, data, metaOnly, pal) == LoadMip(name, data, metaOnly, pal)
  {
    if |data| >= DMIPTEX_SIZE && !metaOnly && S32(data, 24) > 0 {
      var off0: nat := S32(data, 24);
      var n := Mul(U32(data, 16), U32(data, 20));
      NoWrap(n);
      NoWrap(off0 + n);
      if off0 + n <= |data| {
        assert ReadPadded(data, off0, n) == data[off0..off0 + n];
      }
    }
  }

  lemma NoWrap(n: int)
    requires 0 <= n < TWO_32
    ensures n % TWO_32 == n
  {
  }

  /** A 65536 x 65537 mip whose 32-bit pixel count wraps to 65536: the check
    * lets it through and the texture gets 65536 pixels instead of none. */
  lemma MipCountWraps(pal: seq<Rgb>)
    requires |pal| == 256
    ensures var data := seq(DMIPTEX_SIZE + 0x1_0000, k => if k == 18 || k == 20 || k == 22 then 1 else if k == 24 then 40 else 0);
            var t := LoadMipAsWritten("", data, false, pal);
            && t.Some? && |t.value.pixels| == 0x1_0000 && t.value.width * t.value.height != |t.value.pixels|
            && LoadMip("", data, false, pal) == Some(t.value.(pixels := []))
  {
    var data := seq(DMIPTEX_SIZE + 0x1_0000, k => if k == 18 || k == 20 || k == 22 then 1 else if k == 24 then 40 else 0);
    assert U32(data, 16) == 0x1_0000;
    assert U32(data, 20) == 0x1_0001;
    assert S32(data, 24) == 40;
    assert (0x1_0000 * 0x1_0001) % TWO_32 == 0x1_0000;
    var idx := ReadPadded(data, 40, 0x1_0000);
    PalettedMeaning(idx, pal);
  }

  // ------------------------------------------------------------------
  // The texture cache
  // ------------------------------------------------------------------

  /** ASCII case folding, as the cache's hash and equality compare names. */
  function Lower(c: char): char
  {
    if 'A' <= c <= 'Z' then (c as int + 32) as char else c
  }

  function Fold(s: string): (r: string)
    ensures |r| == |s|
  {
    if s == [] then [] else [Lower(s[0])] + Fold(s[1..])
  }

  lemma {:induction false} FoldIdempotent(s: string)
    ensures Fold(Fold(s)) == Fold(s)
  {
    if s != [] {
      FoldIdempotent(s[1..]);
      assert Fold(s)[1..] == Fold(s[1..]);
    }
  }

  /** The cache holds each texture under its folded name. */
  ghost predicate CacheKeys(textures: map<string, Texture>)
  {
    forall k :: k in textures ==> Fold(k) == k
  }

  /** find: the texture cached under a name equal to str ignoring case, or None. */
  function Find(textures: map<string, Texture>, str: string): (r: Option<Texture>)
    requires CacheKeys(textures)
    ensures r.None? <==> forall k :: k in textures ==> Fold(k) != Fold(str)
    ensures r.Some? ==> exists k :: k in textures && Fold(k) == Fold(str) && textures[k] == r.value
  {
    if Fold(str) in textures then Some(textures[Fold(str)]) else None
  }

  /** Names that differ only in case find the same texture. */
  lemma FindIgnoresCase(textures: map<string, Texture>, a: string, b: string)
    requires CacheKeys(textures) && Fold(a) == Fold(b)
    ensures Find(textures, a) == Find(textures, b)
  {
  }

  /** A texture stored under a name is found under that name in any case. */
  lemma FindStored(textures: map<string, Texture>, name: string, tex: Texture, str: string)
    requires CacheKeys(textures)
    ensures CacheKeys(textures[Fold(name) := tex])
    ensures Find(textures[Fold(name) := tex], str) == if Fold(str) == Fold(name) then Some(tex) else Find(textures, str)
  {
    FoldIdempotent(name);
  }
}
