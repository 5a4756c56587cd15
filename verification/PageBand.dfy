/** The browser's page cache: one band of the document is kept as an image and repainted when
    the view leaves it. Display lists of rectangles. */
module PageBand {
  import opened Bytes
  import opened Raster

  const BAND_H: nat := 2000

  datatype Rect = Rect(x: int, y: int, w: int, h: int, color: Word)

  // ----- the whole document -----

  /** A rectangle that starts left of the page is moved to its edge, not cut. */
  predicate Covers(r: Rect, px: int, py: int) {
    var left := if r.x > 0 then r.x else 0;
    r.w > 0 && r.h > 0 && left <= px < left + r.w && r.y <= py < r.y + r.h
  }

  /** The colour of a document pixel: that of the last rectangle over it. */
  function DocPixel(items: seq<Rect>, bg: Word, px: int, py: int): Word {
    if items == [] then bg
    else if Covers(items[|items| - 1], px, py) then items[|items| - 1].color
    else DocPixel(items[..|items| - 1], bg, px, py)
  }

  /** A pixel under an item and under no later one has the item's colour. */
  lemma {:induction false} TopItem(items: seq<Rect>, bg: Word, px: int, py: int, k: nat)
    requires k < |items| && Covers(items[k], px, py) && forall j | k < j < |items| :: !Covers(items[j], px, py)
    ensures DocPixel(items, bg, px, py) == items[k].color
    decreases |items|
  {
    var n := |items| - 1;
    if k < n {
      assert !Covers(items[n], px, py);
      TopItem(items[..n], bg, px, py, k);
    }
  }

  /** A pixel under no item has the colour of the background. */
  lemma {:induction false} NoItem(items: seq<Rect>, bg: Word, px: int, py: int)
    requires forall k | 0 <= k < |items| :: !Covers(items[k], px, py)
    ensures DocPixel(items, bg, px, py) == bg
  {
    if items != [] { NoItem(items[..|items| - 1], bg, px, py); }
  }

  // ----- painting a band -----

  ghost predicate Shows(fb: Framebuffer, items: seq<Rect>, bg: Word, top: int)
    reads fb.pixels
  {
    fb.Valid() && forall px, py | fb.Visible(px, py) :: fb.Pixel(px, py) == DocPixel(items, bg, px, top + py)
  }

  /** Paint the rows of the document from `top` on. */
  method PaintBand(fb: Framebuffer, items: seq<Rect>, bg: Word, top: int)
    requires fb.Valid()
    modifies fb.pixels
    ensures Shows(fb, items, bg, top)
  {
    fb.FillRect(0, 0, fb.width, fb.height, bg);
    for i := 0 to |items|
      invariant Shows(fb, items[..i], bg, top)
    {
      assert items[..i + 1][..i] == items[..i];
      PaintRect(fb, items[i], top);
    }
    assert items[..|items|] == items;
  }

  method PaintRect(fb: Framebuffer, r: Rect, top: int)
    requires fb.Valid()
    modifies fb.pixels
    ensures forall px, py | fb.Visible(px, py) ::
              fb.Pixel(px, py) == if Covers(r, px, top + py) then r.color else old(fb.Pixel(px, py))
  {
    if r.w <= 0 || r.h <= 0 { return; }
    var yy := r.y - top;
    if yy + r.h <= 0 || yy >= fb.height { return; }
    var (dy, dh) := if yy < 0 then (0, r.h + yy) else (yy, r.h);
    if dh > 0 {
      fb.FillRect(if r.x > 0 then r.x else 0, dy, r.w, dh, r.color);
    }
  }

  // ----- the cache -----

  function Target(docH: nat): nat {
    var h := if docH < BAND_H then docH else BAND_H;
    if h > 1 then h else 1
  }

  /** The heights tried for a band, until one can be allocated or is small. */
  function Allocated(viewW: nat, h: nat, room: nat): (r: nat)
    ensures viewW * h <= room ==> r == h
    ensures r <= h
    decreases h
  {
    if viewW * h <= room || h <= 300 then h else Allocated(viewW, h * 2 / 3, room)
  }

  /** The height of a band once it is repainted. */
  function NewHeight(viewW: nat, docH: nat, height: nat, room: nat): nat {
    if height == Target(docH) then height else Allocated(viewW, Target(docH), room)
  }

  predicate CanPaint(viewW: nat, docH: nat, height: nat, room: nat) {
    height == Target(docH) || viewW * Allocated(viewW, Target(docH), room) <= room
  }

  class Page {
    var items: seq<Rect>
    var bg: Word
    var docH: nat
    var viewW: nat
    var scroll: nat
    var bandTop: nat
    var band: Framebuffer

    /** The band is an image of the document rows from `bandTop` on. */
    ghost predicate Valid()
      reads this, band.pixels
    {
      band.Valid() && band.width == band.stride == viewW && (viewW > 0 && docH > 0 ==> Shows(band, items, bg, bandTop))
    }

    /** A page whose band is still to be painted. */
    constructor (list: seq<Rect>, background: Word, height: nat, width: nat)
      ensures items == list && bg == background && docH == height && viewW == width && scroll == 0 && bandTop == 0
      ensures fresh(band) && fresh(band.pixels) && band.Valid() && band.width == band.stride == viewW &&
              band.height == 0
    {
      var none := new Word[0];
      items, bg, docH, viewW, scroll, bandTop := list, background, height, width, 0, 0;
      band := new Framebuffer(width, 0, width, none);
    }

    /** Repaint the band, with a new buffer if the height is not right; `room` is the largest buffer the
        heap can give. Without room for the least height tried, the original stops: `ok` is false. */
    method RepaintBand(room: nat) returns (ok: bool)
      requires band.Valid() && band.width == band.stride == viewW
      modifies this`band, band.pixels
      ensures (band == old(band) || fresh(band)) && (band.pixels == old(band.pixels) || fresh(band.pixels))
      ensures viewW == 0 || docH == 0 ==> ok && band == old(band) && Valid()
      ensures viewW > 0 && docH > 0 ==>
                && ok == CanPaint(viewW, docH, old(band.height), room)
                && (ok ==> Valid() && band.height == NewHeight(viewW, docH, old(band.height), room))
                && (!ok ==> unchanged(this) && unchanged(band.pixels))
    {
      if viewW == 0 || docH == 0 {
        return true;
      }
      var target := Target(docH);
      if band.height != target {
        var h: nat, color := target, bg;
        while viewW * h > room && h > 300
          invariant Allocated(viewW, h, room) == Allocated(viewW, target, room) && h <= target
          decreases h
        {
          h := h * 2 / 3;
        }
        if viewW * h > room {
          return false;
        }
        var pixels := new Word[h * viewW](_ => color);
        band := new Framebuffer(viewW, h, viewW, pixels);
      }
      PaintBand(band, items, bg, bandTop);
      return true;
    }

    /** Whether the view is where the band already is. */
    predicate Inside(viewH: nat)
      reads this, band
    {
      band.height > 1 && bandTop <= scroll && scroll + viewH <= bandTop + band.height
    }

    /** Repaint the band around the view, unless the view is inside it. */
    method EnsureBand(viewH: nat, room: nat) returns (ok: bool)
      requires Valid()
      modifies this`band, this`bandTop, band.pixels
      ensures (band == old(band) || fresh(band)) && (band.pixels == old(band.pixels) || fresh(band.pixels))
      ensures viewW == 0 || docH == 0 || old(Inside(viewH)) ==>
                ok && unchanged(this) && unchanged(band) && unchanged(band.pixels) && Valid()
      ensures viewW > 0 && docH > 0 && !old(Inside(viewH)) ==>
                && ok == CanPaint(viewW, docH, old(band.height), room)
                && (ok ==> Valid() && band.height == NewHeight(viewW, docH, old(band.height), room)
                           && bandTop == NewTop(scroll, viewH, docH, Target(docH)))
    {
      if viewW == 0 || docH == 0 {
        return true;
      }
      var bh := band.height;
      if bh > 1 && scroll >= bandTop && scroll + viewH <= bandTop + bh {
        return true;
      }
      var targetH := if docH < BAND_H then docH else BAND_H;
      bandTop := NewTop(scroll, viewH, docH, targetH);
      ok := RepaintBand(room);
    }

    /** The view: row by row what the band has of the document, and the background elsewhere. */
    method PaintView(canvas: Framebuffer, chrome: nat, room: nat) returns (ok: bool)
      requires Valid() && canvas.Valid() && chrome <= canvas.height && canvas.pixels != band.pixels
      modifies this`band, this`bandTop, band.pixels, canvas.pixels
      ensures ok <==> viewW == 0 || docH == 0 || old(Inside(canvas.height - chrome)) ||
                      CanPaint(viewW, docH, old(band.height), room)
      ensures ok && (viewW == 0 || docH == 0 || old(Inside(canvas.height - chrome))) ==>
                bandTop == old(bandTop) && band == old(band)
      ensures ok && viewW > 0 && docH > 0 && !old(Inside(canvas.height - chrome)) ==>
                && bandTop == NewTop(scroll, canvas.height - chrome, docH, Target(docH))
                && band.height == NewHeight(viewW, docH, old(band.height), room)
      ensures ok ==>
                && Valid()
                && (forall px, py | canvas.Visible(px, py) && py < chrome ::
                      canvas.Pixel(px, py) == old(canvas.Pixel(px, py)))
                && forall px, py | canvas.Visible(px, py) && py >= chrome ::
                     canvas.Pixel(px, py) ==
                     RowPixel(items, bg, HasRow(canvas, scroll + (py - chrome)), px, scroll + (py - chrome))
    {
      hide Shows, RowPixel, Framebuffer.Pixel, Allocated, Inside;
      var viewH := canvas.height - chrome;
      ok := EnsureBand(viewH, room);
      if !ok {
        return;
      }
      for row := 0 to viewH
        modifies canvas.pixels
        invariant Valid() && canvas.pixels != band.pixels
        invariant forall px, py | canvas.Visible(px, py) && (py < chrome || py >= chrome + row) ::
                  canvas.Pixel(px, py) == old(canvas.Pixel(px, py))
        invariant forall px, py | canvas.Visible(px, py) && chrome <= py < chrome + row ::
                    canvas.Pixel(px, py) ==
                    RowPixel(items, bg, HasRow(canvas, scroll + (py - chrome)), px, scroll + (py - chrome))
      {
        PaintRow(canvas, chrome + row, scroll + row);
      }
    }

    /** The band has the document row, and is as wide as the canvas. */
    predicate HasRow(canvas: Framebuffer, sy: nat)
      reads this, band
    {
      sy < docH && viewW == canvas.width && bandTop <= sy < bandTop + band.height
    }

    /** One row of the view. */
    method PaintRow(canvas: Framebuffer, y: nat, sy: nat)
      requires Valid() && canvas.Valid() && y < canvas.height && canvas.pixels != band.pixels
      modifies canvas.pixels
      ensures Valid()
      ensures forall px, py | canvas.Visible(px, py) && py != y :: canvas.Pixel(px, py) == old(canvas.Pixel(px, py))
      ensures forall px | 0 <= px < canvas.width ::
                canvas.Pixel(px, y) == RowPixel(items, bg, HasRow(canvas, sy), px, sy)
    {
      if sy < docH && viewW == canvas.width && bandTop <= sy < bandTop + band.height {
        CopyRow(canvas, y, band, sy - bandTop);
      } else {
        canvas.FillRect(0, y, canvas.width, 1, bg);
      }
    }
  }

  function RowPixel(items: seq<Rect>, bg: Word, there: bool, px: int, sy: nat): Word {
    if there then DocPixel(items, bg, px, sy) else bg
  }

  /** The rows from `scroll` on, as far as the view and the document go, are among those of
      the band. */
  predicate InView(scroll: nat, viewH: nat, docH: nat, top: nat, height: nat) {
    var end := if scroll + viewH < docH then scroll + viewH else docH;
    scroll < end ==> top <= scroll && end <= top + height
  }

  function NewTop(scroll: nat, viewH: nat, docH: nat, targetH: nat): nat {
    var top := Monus(scroll, Monus(targetH, viewH) / 2);
    if top < Monus(docH, targetH) then top else Monus(docH, targetH)
  }

  /** A full band has as many rows as the document, but at most 2000. Its top is a row of the document from which a
      full band does not reach behind the end, and between the two ends it has as many rows above the view as below,
      or one less. */
  lemma {:induction false} Centred(scroll: nat, viewH: nat, docH: nat)
    requires docH > 0
    ensures Target(docH) == Min(docH, 2000)
    ensures var top, h := NewTop(scroll, viewH, docH, Target(docH)), Target(docH);
            && top + h <= docH
            && (0 < top < docH - h && viewH <= h ==>
                  var above, below := scroll - top, top + h - (scroll + viewH); above <= below <= above + 1)
            && (viewH >= h ==> top == Min(scroll, docH - h))
  {
  }

  /** After a repaint the rows in view are in the band if and only if they end where the band does or
      before: the top is right for any height, as it is meant for the full one. */
  lemma {:induction false} RepaintCovers(scroll: nat, viewH: nat, docH: nat, height: nat)
    requires docH > 0
    ensures var top, end := NewTop(scroll, viewH, docH, Target(docH)), Min(scroll + viewH, docH);
            InView(scroll, viewH, docH, top, height) <==> (scroll < end ==> end <= top + height)
    ensures height == Target(docH) && viewH <= BAND_H ==>
              InView(scroll, viewH, docH, NewTop(scroll, viewH, docH, Target(docH)), height)
  {
  }

  /** Right after a repaint the view is inside the band if and only if it ends where the band does or
      before; if not, the next paint of the same view repaints again. That is always so for a view that
      reaches below the document's end, though the band has every row of it. */
  lemma {:induction false} RepaintAgain(scroll: nat, viewH: nat, docH: nat, height: nat)
    requires docH > 0 && 1 < height <= Target(docH)
    ensures var top := NewTop(scroll, viewH, docH, Target(docH));
            && top <= scroll && top + height <= docH
            && (scroll + viewH <= docH && scroll < docH && viewH > 0 ==>
                (scroll + viewH <= top + height <==> InView(scroll, viewH, docH, top, height)))
            && (scroll + viewH > docH ==> scroll + viewH > top + height)
            && (scroll + viewH > docH && height == Target(docH) && viewH <= BAND_H ==>
                InView(scroll, viewH, docH, top, height))
  {
  }

  /** The height is the first of the ones tried for which there is room, or one of at most 300 rows. */
  lemma {:induction false} AllocatedFits(viewW: nat, h: nat, room: nat)
    ensures var r := Allocated(viewW, h, room);
            viewW * r <= room || (r <= 300 && (h > 0 ==> r > 0))
    decreases h
  {
    if viewW * h > room && h > 300 { AllocatedFits(viewW, h * 2 / 3, room); }
  }

  /** Room for 1333 rows: the band ends 17 rows before the view does. */
  lemma {:induction false} ShortBand(viewW: nat)
    requires viewW > 0
    ensures var room := viewW * 1333;
            && Allocated(viewW, Target(10000), room) == 1333 && CanPaint(viewW, 10000, 0, room)
            && NewTop(5000, 700, 10000, Target(10000)) == 4350
            && !InView(5000, 700, 10000, 4350, 1333)
            && (5000 + 700) - (4350 + 1333) == 17
  {
    MulMonotone(1334, 2000, viewW);
    assert viewW * 1334 == viewW * 1333 + viewW;
    assert Allocated(viewW, 1333, viewW * 1333) == 1333;
  }

  method CopyRow(dst: Framebuffer, y: nat, src: Framebuffer, sy: nat)
    requires dst.Valid() && src.Valid() && dst.width == src.width && y < dst.height && sy < src.height &&
             dst.pixels != src.pixels
    modifies dst.pixels
    ensures forall px, py | dst.Visible(px, py) ::
            dst.Pixel(px, py) == if py == y then src.Pixel(px, sy) else old(dst.Pixel(px, py))
  {
    for x := 0 to dst.width
      invariant forall px, py | dst.Visible(px, py) ::
                  dst.Pixel(px, py) == if py == y && px < x then src.Pixel(px, sy) else old(dst.Pixel(px, py))
    {
      Inside(x, sy, src.width, src.height, src.stride);
      dst.PutPixel(x, y, src.pixels[sy * src.stride + x]);
    }
  }
}
