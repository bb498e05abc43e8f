/** nunifont.c: drawing glyphs from the font bitmaps, and the cache of what has been drawn. */
module GlyphCache {
  import opened Common
  import opened Bits
  import opened Line
  import HashTable

  /** The maps in use: 32 bytes of bitmap for each character, and one bit that says whether it is narrow. */
  datatype Font = Font(fontmap: seq<seq<byte>>, widthmap: seq<byte>)

  predicate FontOk(font: Font) {
    |font.fontmap| == 65536 && |font.widthmap| == 8192 && forall c :: 0 <= c < 65536 ==> |font.fontmap[c]| == 32
  }

  /** Bit number bit of b: b & (1 << bit). */
  predicate BitOf(b: byte, bit: nat)
    requires bit < 8
  {
    BitAnd(b, Pow2(bit)) > 0
  }

  lemma BitOfIs(b: byte, bit: nat)
    requires bit < 8
    ensures BitOf(b, bit) <==> Bit(b, bit)
  {
    AndOne(b, bit);
    hide BitAnd;
  }

  /** get_pixel is not zero. */
  predicate Lit(font: Font, c: nat, x: int, y: int)
    requires FontOk(font) && c < 65536
  {
    && 0 <= x <= 15 && 0 <= y <= 15
    && BitOf(font.fontmap[c][(y * 16 + x) / 8], (y * 16 + x) % 8)
  }

  /** get_widthmap. */
  predicate Narrow(font: Font, p: nat)
    requires FontOk(font) && p < 65536
  {
    BitOf(font.widthmap[p / 8], p % 8)
  }

  type uint32 = x: int | 0 <= x < 0x1_0000_0000
  type int32 = x: int | -0x8000_0000 <= x <= 0x7fff_ffff

  /** lookup_key_t. */
  datatype Key = Key(c: uint32, bg: uint32, fg: uint32, bold: int32, underline: int32, italic: int32, strike: int32)

  // --- The bytes of a key -----------------------------------------------------------------------

  /** Four bytes, least significant first. */
  function Bytes(n: uint32): (b: seq<byte>)
    ensures |b| == 4
  {
    var (n1, n2, n3) := (n / 256, n / 256 / 256, n / 256 / 256 / 256);
    [n % 256, n1 % 256, n2 % 256, n3]
  }

  /** Two's complement. */
  function Unsigned(n: int32): uint32 { if n < 0 then n + 0x1_0000_0000 else n }

  /** The 28 bytes that uthash compares. */
  function KeyBytes(k: Key): seq<byte> {
    Bytes(k.c) + Bytes(k.bg) + Bytes(k.fg) + Bytes(Unsigned(k.bold)) + Bytes(Unsigned(k.underline))
    + Bytes(Unsigned(k.italic)) + Bytes(Unsigned(k.strike))
  }

  lemma SameBytes(m: uint32, n: uint32)
    requires Bytes(m) == Bytes(n)
    ensures m == n
  {
    assert Bytes(m)[0] == Bytes(n)[0] && Bytes(m)[1] == Bytes(n)[1] && Bytes(m)[2] == Bytes(n)[2]
           && Bytes(m)[3] == Bytes(n)[3];
  }

  lemma SameFront(a: seq<byte>, x: seq<byte>, b: seq<byte>, y: seq<byte>)
    requires a + x == b + y && |x| == |y|
    ensures a == b && x == y
  {
    assert a == (a + x)[..|a|] && b == (b + y)[..|b|];
    assert x == (a + x)[|a|..] && y == (b + y)[|b|..];
  }

  /** Different keys have different bytes. */
  lemma SameKey(j: Key, k: Key)
    requires KeyBytes(j) == KeyBytes(k)
    ensures j == k
  {
    var (c, bg, fg) := (Bytes(j.c), Bytes(j.bg), Bytes(j.fg));
    var (bold, under, italic, strike) :=
      (Bytes(Unsigned(j.bold)), Bytes(Unsigned(j.underline)), Bytes(Unsigned(j.italic)), Bytes(Unsigned(j.strike)));
    var (c', bg', fg') := (Bytes(k.c), Bytes(k.bg), Bytes(k.fg));
    var (bold', under', italic', strike') :=
      (Bytes(Unsigned(k.bold)), Bytes(Unsigned(k.underline)), Bytes(Unsigned(k.italic)), Bytes(Unsigned(k.strike)));
    hide Bytes;
    SameFront(c + bg + fg + bold + under + italic, strike, c' + bg' + fg' + bold' + under' + italic', strike');
    SameFront(c + bg + fg + bold + under, italic, c' + bg' + fg' + bold' + under', italic');
    SameFront(c + bg + fg + bold, under, c' + bg' + fg' + bold', under');
    SameFront(c + bg + fg, bold, c' + bg' + fg', bold');
    SameFront(c + bg, fg, c' + bg', fg');
    SameFront(c, bg, c', bg');
    SameBytes(j.c, k.c);
    SameBytes(j.bg, k.bg);
    SameBytes(j.fg, k.fg);
    SameBytes(Unsigned(j.bold), Unsigned(k.bold));
    SameBytes(Unsigned(j.underline), Unsigned(k.underline));
    SameBytes(Unsigned(j.italic), Unsigned(k.italic));
    SameBytes(Unsigned(j.strike), Unsigned(k.strike));
  }

  // --- What a glyph looks like ------------------------------------------------------------------

  /** Underline is the surface's row 15, strike its row 8; they cover the cell and are not slanted. */
  predicate Ruled(k: Key, row: int) { (row == 15 && k.underline == 1) || (row == 8 && k.strike == 1) }

  function Slant(k: Key): nat { if k.italic == 1 then 1 else 0 }

  /** The colour of the glyph's own pixel: bold also takes the pixel to the left of a lit one. */
  function Ink(font: Font, k: Key, x: int, y: int): nat
    requires FontOk(font) && k.c < 65536
  {
    if Lit(font, k.c, x, y) || (k.bold == 1 && Lit(font, k.c, x + 1, y)) then k.fg else k.bg
  }

  /** The surface's pixel (px, py), which was before, when the glyph is drawn in a cell of width w at (x, y). */
  function Drawn(font: Font, k: Key, x: int, y: int, w: int, px: int, py: int, before: nat): nat
    requires FontOk(font) && k.c < 65536
  {
    if !(y <= py < y + 16) then before
    else if Ruled(k, py) then if x <= px < x + w then k.fg else before
    else if x + Slant(k) <= px < x + Slant(k) + w then Ink(font, k, px - Slant(k) - x, py - y)
    else before
  }

  /** The font's pixel (x, y): two bytes a row, the lowest bit leftmost. */
  predicate PixelSet(font: Font, c: nat, x: nat, y: nat)
    requires FontOk(font) && c < 65536 && x <= 15 && y <= 15
  {
    Bit(font.fontmap[c][2 * y + x / 8], x % 8)
  }

  lemma LitIs(font: Font, c: nat, x: int, y: int)
    requires FontOk(font) && c < 65536
    ensures Lit(font, c, x, y) <==> 0 <= x <= 15 && 0 <= y <= 15 && PixelSet(font, c, x, y)
  {
    if 0 <= x <= 15 && 0 <= y <= 15 {
      assert (y * 16 + x) / 8 == 2 * y + x / 8 && (y * 16 + x) % 8 == x % 8;
      BitOfIs(font.fontmap[c][2 * y + x / 8], x % 8);
    }
    hide BitOf, Bit;
  }

  lemma NarrowIs(font: Font, c: nat)
    requires FontOk(font) && c < 65536
    ensures Narrow(font, c) <==> Bit(font.widthmap[c / 8], c % 8)
  {
    BitOfIs(font.widthmap[c / 8], c % 8);
    hide BitOf, Bit;
  }

  type Image = seq<seq<nat>>

  function CellWidth(font: Font, c: nat): nat
    requires FontOk(font) && c < 65536
  {
    if Narrow(font, c) then 8 else 16
  }

  /** A fresh rendering of the glyph on a new surface, which is all zero. */
  function Rendering(font: Font, k: Key): Image
    requires FontOk(font) && k.c < 65536
  {
    var w := CellWidth(font, k.c);
    seq(16, y => seq(w, x => Drawn(font, k, 0, 0, w, x, y, 0)))
  }

  /** The font's pixel, or with bold its right neighbour, is set. */
  predicate Inked(font: Font, k: Key, u: nat, v: nat)
    requires FontOk(font) && k.c < 65536 && v < 16
  {
    (u < 16 && PixelSet(font, k.c, u, v)) || (k.bold == 1 && u + 1 < 16 && PixelSet(font, k.c, u + 1, v))
  }

  /** Any pixel of a surface with a glyph in the cell at (x, y): underline fills the surface's row 15 and strike its row
      8, wherever the cell is; italics move the rest to the right by one; bold also sets the pixel to the left of a set
      one. */
  lemma DrawnIs(font: Font, k: Key, x: int, y: int, w: int, px: int, py: int, before: nat)
    requires FontOk(font) && k.c < 65536
    ensures var i := if k.italic == 1 then 1 else 0;
            Drawn(font, k, x, y, w, px, py, before) ==
              if py < y || py > y + 15 then before
              else if (py == 15 && k.underline == 1) || (py == 8 && k.strike == 1) then
                if px < x || px >= x + w then before else k.fg
              else if px < x + i || px >= x + i + w then before
              else if Inked(font, k, px - x - i, py - y) then k.fg
              else k.bg
  {
    var px' := px - x - Slant(k);
    LitIs(font, k.c, px', py - y);
    LitIs(font, k.c, px' + 1, py - y);
    hide Lit, PixelSet, Bit;
  }

  /** A glyph as it is cached: italics leave its column 0 as it was on the new surface. */
  lemma RenderingIs(font: Font, k: Key, x: nat, y: nat)
    requires FontOk(font) && k.c < 65536 && x < 16 && y < 16
    ensures var (w, i) := (if Bit(font.widthmap[k.c / 8], k.c % 8) then 8 else 16, if k.italic == 1 then 1 else 0);
            var image := Rendering(font, k);
            && |image| == 16 && |image[y]| == w
            && (x < w ==>
                  image[y][x] ==
                    if (y == 15 && k.underline == 1) || (y == 8 && k.strike == 1) then k.fg
                    else if x < i then 0
                    else if Inked(font, k, x - i, y) then k.fg
                    else k.bg)
  {
    NarrowIs(font, k.c);
    DrawnIs(font, k, 0, 0, CellWidth(font, k.c), x, y, 0);
    hide Drawn, Inked, Narrow, Bit;
  }

  // --- Drawing ----------------------------------------------------------------------------------

  /** get_pixel. */
  method GetPixel(font: Font, c: nat, x: int, y: int) returns (value: nat)
    requires FontOk(font) && c < 65536
    ensures value == if Lit(font, c, x, y) then 65535 else 0
    ensures value > 0 <==> 0 <= x <= 15 && 0 <= y <= 15 && PixelSet(font, c, x, y)
  {
    LitIs(font, c, x, y);
    hide PixelSet;
    if x < 0 { return 0; }
    if y < 0 { return 0; }
    if x > 15 { return 0; }
    if y > 15 { return 0; }
    var pos := y * 16 + x;
    if BitOf(font.fontmap[c][pos / 8], pos % 8) { value := 65535; } else { value := 0; }
  }

  /** The loop body of draw_character_surface. */
  method DrawPoint(s: Surface, font: Font, k: Key, x: int, y: int, cx: int, cy: int)
    requires s.Valid() && FontOk(font) && k.c < 65536
    modifies s.pixels
    ensures var q := (if Ruled(k, cy) then cx else cx + Slant(k), cy);
            forall p :: s.Inside(p) ==>
              s.Pixel(p) == (if p != q then old(s.Pixel(p)) else if Ruled(k, cy) then k.fg
                             else Ink(font, k, cx - x, cy - y))
  {
    hide PixelSet, Lit, FontOk;
    if cy == 15 && k.underline == 1 {
      s.PointS(cx, cy, k.fg);
    } else if cy == 8 && k.strike == 1 {
      s.PointS(cx, cy, k.fg);
    } else {
      var value := GetPixel(font, k.c, cx - x, cy - y);
      var value1 := GetPixel(font, k.c, cx + 1 - x, cy - y);
      var i := 0;
      if k.italic == 1 { i := 1; }
      if value > 0 {
        s.PointS(cx + i, cy, k.fg);
      } else {
        s.PointS(cx + i, cy, k.bg);
        if k.bold == 1 {
          if value1 > 0 {
            s.PointS(cx + i, cy, k.fg);
          }
        }
      }
    }
  }

  lemma DrawnNext(font: Font, k: Key, x: int, y: int, n: nat, px: int, py: int, before: nat)
    requires FontOk(font) && k.c < 65536 && y <= py < y + 16
    ensures var q := if Ruled(k, py) then x + n else x + n + Slant(k);
            Drawn(font, k, x, y, n + 1, px, py, before) ==
              if px != q then Drawn(font, k, x, y, n, px, py, before)
              else if Ruled(k, py) then k.fg else Ink(font, k, n, py - y)
  {
    hide Ink, Ruled, FontOk;
  }

  // The loops count in size_t: a negative start is a very large number.

  const WORD := 0x1_0000_0000_0000_0000

  function SizeT(v: int): int { if v < 0 then v + WORD else v }

  /** A size_t that a loop reaches, passed on as int. */
  function AsInt(c: int): int { if c >= WORD / 2 then c - WORD else c }

  /** An int whose sum with n does not overflow. */
  predicate IntRange(v: int, n: nat) { -0x8000_0000 <= v && v + n <= 0x7fff_ffff }

  /** One row of the cell. */
  method DrawRow(s: Surface, font: Font, k: Key, x: int, y: int, w: nat, cy: int)
    requires s.Valid() && FontOk(font) && k.c < 65536 && y <= cy < y + 16 && IntRange(x, w)
    modifies s.pixels
    ensures forall p :: s.Inside(p) ==>
              s.Pixel(p) == (if p.1 == cy && x >= 0 then Drawn(font, k, x, y, w, p.0, p.1, old(s.Pixel(p)))
                             else old(s.Pixel(p)))
  {
    hide Ink, Ruled, FontOk;
    var cx, end := SizeT(x), SizeT(x + w);
    while cx < end
      invariant x >= 0 ==> x <= cx <= end == x + w
      invariant x < 0 ==> cx >= x + WORD && (cx < end ==> end == x + w + WORD < WORD)
      invariant forall p :: s.Inside(p) ==>
        s.Pixel(p) == (if p.1 == cy && x >= 0 then Drawn(font, k, x, y, cx - x, p.0, p.1, old(s.Pixel(p)))
                       else old(s.Pixel(p)))
    {
      DrawPoint(s, font, k, x, y, AsInt(cx), cy);
      forall p | s.Inside(p) && p.1 == cy && x >= 0
        ensures s.Pixel(p) == Drawn(font, k, x, y, cx + 1 - x, p.0, p.1, old(s.Pixel(p)))
      {
        DrawnNext(font, k, x, y, cx - x, p.0, p.1, old(s.Pixel(p)));
      }
      cx := cx + 1;
    }
  }

  /** draw_character_surface. With a negative x or y nothing is drawn, also where the cell reaches into the surface. */
  method DrawCharacterSurface(s: Surface, x: int, y: int, w: nat, font: Font, k: Key)
    requires s.Valid() && FontOk(font) && k.c < 65536 && IntRange(x, w) && IntRange(y, 16)
    modifies s.pixels
    ensures forall p :: s.Inside(p) ==>
              s.Pixel(p) == (if x < 0 || y < 0 then old(s.Pixel(p))
                             else Drawn(font, k, x, y, w, p.0, p.1, old(s.Pixel(p))))
  {
    var cy, end := SizeT(y), SizeT(y + 16);
    while cy < end
      invariant y >= 0 ==> y <= cy <= end == y + 16
      invariant y < 0 ==> cy >= y + WORD && (cy < end ==> end == y + 16 + WORD < WORD)
      invariant forall p :: s.Inside(p) ==>
        s.Pixel(p) == (if p.1 < cy && x >= 0 && y >= 0 then Drawn(font, k, x, y, w, p.0, p.1, old(s.Pixel(p)))
                       else old(s.Pixel(p)))
    {
      hide Ink, Ruled, FontOk;
      DrawRow(s, font, k, x, y, w, AsInt(cy));
      cy := cy + 1;
    }
  }

  /** SDL_CreateTextureFromSurface, which copies the pixels. */
  method CreateTexture(s: Surface) returns (rows: Image)
    requires s.Valid()
    ensures |rows| == s.h && forall y :: 0 <= y < s.h ==> |rows[y]| == s.w
    ensures forall p :: s.Inside(p) ==> rows[p.1][p.0] == s.Pixel(p)
  {
    rows := [];
    for y := 0 to s.h
      invariant |rows| == y && forall j :: 0 <= j < y ==> |rows[j]| == s.w
      invariant forall p :: s.Inside(p) && p.1 < y ==> rows[p.1][p.0] == s.Pixel(p)
    {
      var row := [];
      for x := 0 to s.w
        invariant |row| == x && forall i :: 0 <= i < x ==> row[i] == s.pixels[y, i]
      {
        row := row + [s.pixels[y, x]];
      }
      rows := rows + [row];
    }
  }

  lemma SameImage(a: Image, b: Image, w: nat)
    requires |a| == |b| && (forall y :: 0 <= y < |a| ==> |a[y]| == |b[y]| == w)
    requires forall x, y :: 0 <= x < w && 0 <= y < |a| ==> a[y][x] == b[y][x]
    ensures a == b
  {
    forall y | 0 <= y < |a| ensures a[y] == b[y] { assert forall x :: 0 <= x < w ==> a[y][x] == b[y][x]; }
  }

  // --- The cache --------------------------------------------------------------------------------

  /** What char_render_t holds beside its hash handle. */
  datatype Glyph = Glyph(key: Key, texture: Image)

  class Glyphs {
    const hash: HashTable.Hash
    const withBloom: bool
    const bloomBits: nat
    var font: Font
    var cache: HashTable.Table                       // display_cache
    var glyphs: map<HashTable.Element, Glyph>        // the structure around each handle
    var width: nat
    var height: nat

    ghost predicate Valid()
      reads this`font, this`cache, this`glyphs, cache, cache.buckets, cache.bloom, cache.order,
            HashTable.Members(cache.chains)
    {
      cache.Valid() && FontOk(font) && AllRight(font, glyphs, cache.order)
    }

    ghost function Repr(): set<object>
      reads this`cache, cache
    {
      {this, cache, cache.buckets, cache.bloom} + set o: object | o in cache.order
    }

    lemma ValidParts()
      ensures Valid() <==> cache.Valid() && FontOk(font) && AllRight(font, glyphs, cache.order)
    {
    }

    constructor (font: Font, hash: HashTable.Hash, withBloom: bool, bloomBits: nat)
      requires FontOk(font)
      ensures Valid() && this.font == font && cache.order == []
      ensures fresh(cache) && fresh(cache.buckets) && fresh(cache.bloom)
    {
      this.hash, this.withBloom, this.bloomBits := hash, withBloom, bloomBits;
      this.font, glyphs, width, height := font, map[], 8, 16;
      cache := new HashTable.Table(hash, withBloom, bloomBits);
    }

    /** nunifont_initcache. */
    method InitCache()
      modifies this`cache
      ensures fresh(cache) && fresh(cache.buckets) && fresh(cache.bloom) && cache.Valid() && cache.order == []
    {
      cache := new HashTable.Table(hash, withBloom, bloomBits);
    }

    /** nunifont_load_staticmap, and nunifont_init once it has read a font: other maps, and an empty cache. */
    method LoadMaps(font': Font)
      requires FontOk(font')
      modifies this`font, this`cache
      ensures Valid() && font == font' && cache.order == []
      ensures fresh(cache) && fresh(cache.buckets) && fresh(cache.bloom)
    {
      font := font';
      InitCache();
    }

    /** nunifont_size. */
    method SetSize(size: nat)
      requires Valid()
      modifies this`width, this`height
      ensures Valid() && font == old(font) && cache == old(cache)
      ensures (width, height) == if size == 16 then (8, 16) else if size == 32 then (16, 32) else old((width, height))
    {
      hide *;
      ValidParts();
      cache.ValidParts();
      HashTable.ElemsIn(cache.order, cache.order);
      if size == 16 { width, height := 8, 16; }
      if size == 32 { width, height := 16, 32; }
      if cache.order == [] { cache.ValidEmpty(); }
      ValidParts();
    }

    /** A new surface and the glyph on it: what a cache miss does. */
    method Render(k: Key, w: nat) returns (texture: Image)
      requires FontOk(font) && k.c < 65536 && w == CellWidth(font, k.c)
      ensures texture == Rendering(font, k)
    {
      var s := new Surface(w, 16);
      DrawCharacterSurface(s, 0, 0, w, font, k);
      texture := CreateTexture(s);
      forall x, y | 0 <= x < w && 0 <= y < 16 ensures texture[y][x] == Rendering(font, k)[y][x] {
        assert s.Inside((x, y));
      }
      SameImage(texture, Rendering(font, k), w);
    }

    /** A miss: HASH_ADD of a new structure. */
    method Insert(k: Key, texture: Image, ghost all: set<HashTable.Element>) returns (mchr: HashTable.Element)
      requires Valid() && HashTable.Elems(cache.order) == all && k.c < 65536 && texture == Rendering(font, k)
      requires HashTable.Lookup(cache.order, KeyBytes(k)) == null
      modifies this`glyphs, cache, cache.buckets, cache.bloom, cache.order
      ensures Valid() && fresh(mchr) && mchr.key == KeyBytes(k) && cache.order == old(cache.order) + [mchr]
      ensures cache.buckets == old(cache.buckets) || fresh(cache.buckets)
      ensures cache.bloom == old(cache.bloom) || fresh(cache.bloom)
    {
      hide *;
      ValidParts();
      cache.ValidParts();
      mchr := new HashTable.Element(KeyBytes(k));
      HoldsNow(font, k, texture);
      OneMoreRight(font, glyphs, cache.order, mchr, Glyph(k, texture));
      glyphs := glyphs[mchr := Glyph(k, texture)];
      if cache.order == [] { cache.ValidEmpty(); }
      cache.Add(mchr);
      ValidParts();
    }

    /** The lookup, and on a miss the drawing and adding. */
    method Fetch(k: Key, w: nat, ghost all: set<HashTable.Element>) returns (texture: Image)
      requires Valid() && HashTable.Elems(cache.order) == all && k.c < 65536 && w == CellWidth(font, k.c)
      modifies this`glyphs, cache, cache.buckets, cache.bloom, cache.order
      ensures Valid() && texture == Rendering(font, k)
      ensures if HashTable.Lookup(old(cache.order), KeyBytes(k)) != null then cache.order == old(cache.order)
              else
                |cache.order| == |old(cache.order)| + 1 && old(cache.order) <= cache.order
                && var e := cache.order[|cache.order| - 1]; fresh(e) && e.key == KeyBytes(k)
      ensures cache.buckets == old(cache.buckets) || fresh(cache.buckets)
      ensures cache.bloom == old(cache.bloom) || fresh(cache.bloom)
    {
      hide *;
      ValidParts();
      cache.ValidParts();
      var mchr := cache.Find(KeyBytes(k));
      if cache.order == [] { cache.ValidEmpty(); }
      ValidParts();
      if mchr == null {
        texture := Render(k, w);
        if cache.order == [] { cache.ValidEmpty(); }
        ValidParts();
        mchr := Insert(k, texture, all);
        ValidParts();
      }
      OneRight(font, glyphs, cache.order, mchr, k);
      texture := glyphs[mchr].texture;
    }

    /** draw_character: the texture copied to the screen, and the size it is stretched to. */
    method DrawCharacter(k: Key) returns (texture: Image, mw: nat, mh: nat)
      requires Valid() && k.c < 65536
      modifies this`glyphs, cache, cache.buckets, cache.bloom, cache.order
      ensures Valid() && texture == Rendering(font, k)
      ensures if HashTable.Lookup(old(cache.order), KeyBytes(k)) != null then cache.order == old(cache.order)
              else
                |cache.order| == |old(cache.order)| + 1 && old(cache.order) <= cache.order
                && var e := cache.order[|cache.order| - 1]; fresh(e) && e.key == KeyBytes(k)
      ensures mw == (if Narrow(font, k.c) then width else 2 * width) && mh == height
      ensures cache.buckets == old(cache.buckets) || fresh(cache.buckets)
      ensures cache.bloom == old(cache.bloom) || fresh(cache.bloom)
    {
      hide *;
      ValidParts();
      WidthIs(font, k.c);
      var w := if !Narrow(font, k.c) then 16 else 8;
      texture := Fetch(k, w, HashTable.Elems(cache.order));
      mw := width;
      if w == 16 { mw := width * 2; }
      mh := height;
    }
  }

  /** This structure, found by these bytes, is right for these maps. */
  ghost predicate Holds(font: Font, bytes: seq<byte>, g: Glyph)
    requires FontOk(font)
  {
    bytes == KeyBytes(g.key) && g.key.c < 65536 && g.texture == Rendering(font, g.key)
  }

  lemma HoldsNow(font: Font, k: Key, texture: Image)
    requires FontOk(font) && k.c < 65536 && texture == Rendering(font, k)
    ensures Holds(font, KeyBytes(k), Glyph(k, texture))
  {
  }

  lemma WidthIs(font: Font, c: nat)
    requires FontOk(font) && c < 65536
    ensures CellWidth(font, c) == if Narrow(font, c) then 8 else 16
  {
  }

  /** The structures in the cache are found by the bytes of their keys, and have the texture that a fresh rendering with
      the maps in use would give. */
  ghost predicate AllRight(font: Font, glyphs: map<HashTable.Element, Glyph>, order: seq<HashTable.Element>)
    requires FontOk(font)
  {
    forall e :: e in order ==> e in glyphs && Holds(font, e.key, glyphs[e])
  }

  lemma OneMoreRight(font: Font, glyphs: map<HashTable.Element, Glyph>, order: seq<HashTable.Element>,
                     e: HashTable.Element, g: Glyph)
    requires FontOk(font) && AllRight(font, glyphs, order) && e !in order && Holds(font, e.key, g)
    ensures AllRight(font, glyphs[e := g], order + [e])
  {
    hide Holds, FontOk;
  }

  lemma OneRight(font: Font, glyphs: map<HashTable.Element, Glyph>, order: seq<HashTable.Element>,
                 e: HashTable.Element, k: Key)
    requires FontOk(font) && k.c < 65536 && AllRight(font, glyphs, order) && e in order && e.key == KeyBytes(k)
    ensures e in glyphs && glyphs[e].texture == Rendering(font, k)
  {
    SameKey(glyphs[e].key, k);
  }

  // --- Whole runs -------------------------------------------------------------------------------

  datatype Op = Draw(k: Key) | Load(font: Font) | Resize(size: nat)

  predicate Legal(op: Op) {
    match op
    case Draw(k) => k.c < 65536
    case Load(font) => FontOk(font)
    case Resize(_) => true
  }

  function FontAfter(font: Font, op: Op): Font { if op.Load? then op.font else font }

  function Shown(font: Font, op: Op): seq<Image>
    requires FontOk(font) && Legal(op)
  {
    if op.Draw? then [Rendering(font, op.k)] else []
  }

  /** What a run without any cache would put on the screen. */
  function Fresh(font: Font, ops: seq<Op>): seq<Image>
    requires FontOk(font) && forall i :: 0 <= i < |ops| ==> Legal(ops[i])
    decreases |ops|
  {
    if ops == [] then []
    else
      assert Legal(ops[0]);
      Shown(font, ops[0]) + Fresh(FontAfter(font, ops[0]), ops[1..])
  }

  lemma ActIs(font: Font, op: Op)
    requires FontOk(font) && Legal(op)
    ensures op.Draw? ==> op.k.c < 65536 && Shown(font, op) == [Rendering(font, op.k)] && FontAfter(font, op) == font
    ensures op.Load? ==> FontOk(op.font) && Shown(font, op) == [] && FontAfter(font, op) == op.font
    ensures op.Resize? ==> Shown(font, op) == [] && FontAfter(font, op) == font
  {
  }

  lemma NothingShown(font: Font)
    requires FontOk(font)
    ensures Fresh(font, []) == []
  {
  }

  lemma FreshStep(font: Font, ops: seq<Op>)
    requires FontOk(font) && ops != [] && forall i :: 0 <= i < |ops| ==> Legal(ops[i])
    ensures Legal(ops[0]) && FontOk(FontAfter(font, ops[0]))
    ensures Fresh(font, ops) == Shown(font, ops[0]) + Fresh(FontAfter(font, ops[0]), ops[1..])
  {
    assert Legal(ops[0]);
    hide FontOk, Shown;
  }

  /** One step of a run. */
  method Act(g: Glyphs, op: Op) returns (drawn: seq<Image>)
    requires g.Valid() && Legal(op)
    modifies g.Repr()
    ensures g.Valid() && drawn == Shown(old(g.font), op) && g.font == FontAfter(old(g.font), op)
    ensures fresh(g.Repr() - old(g.Repr()))
  {
    hide Rendering, FontOk, Shown, FontAfter, Legal, AllRight, KeyBytes, Glyphs.Valid, HashTable.Table.Valid;
    g.ValidParts();
    ActIs(g.font, op);
    drawn := [];
    match op {
      case Draw(k) =>
        var texture, mw, mh := g.DrawCharacter(k);
        drawn := [texture];
      case Load(font) => g.LoadMaps(font);
      case Resize(size) => g.SetSize(size);
    }
  }

  /** Over any run of drawing, loading maps and changing sizes the cache cannot be seen. */
  method Play(g: Glyphs, ops: seq<Op>) returns (drawn: seq<Image>)
    requires g.Valid() && forall i :: 0 <= i < |ops| ==> Legal(ops[i])
    modifies g.Repr()
    ensures g.Valid() && drawn == Fresh(old(g.font), ops)
    decreases |ops|
  {
    hide *;
    drawn := [];
    g.ValidParts();
    if ops == [] {
      NothingShown(g.font);
    } else {
      FreshStep(g.font, ops);
      drawn := Act(g, ops[0]);
      var rest := Play(g, ops[1..]);
      drawn := drawn + rest;
    }
  }
}
