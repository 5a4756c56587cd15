/** Lines and circles drawn with integer error terms into a linear framebuffer. */
module Raster {
  import opened Bytes

  function Abs(n: int): nat { if n < 0 then -n else n }

  function Max(a: nat, b: nat): nat { if a >= b then a else b }

  function Min(a: nat, b: nat): nat { if a <= b then a else b }

  class Framebuffer {
    const width: nat
    const height: nat
    const stride: nat
    const pixels: array<Word>

    constructor (w: nat, h: nat, s: nat, base: array<Word>)
      requires w <= s && base.Length == h * s
      ensures Valid() && width == w && height == h && stride == s && pixels == base
    {
      width, height, stride, pixels := w, h, s, base;
    }

    ghost predicate Valid() { width <= stride && pixels.Length == height * stride }

    ghost predicate Visible(x: int, y: int) { 0 <= x < width && 0 <= y < height }

    ghost function Pixel(x: int, y: int): Word
      reads pixels
      requires Valid() && Visible(x, y)
    {
      Inside(x, y, width, height, stride);
      pixels[y * stride + x]
    }

    method PutPixel(x: nat, y: nat, color: Word)
      requires Valid()
      modifies pixels
      ensures forall px, py | Visible(px, py) ::
              Pixel(px, py) == if px == x && py == y then color else old(Pixel(px, py))
    {
      if x < width && y < height {
        Inside(x, y, width, height, stride);
        pixels[y * stride + x] := color;
        forall px, py | Visible(px, py) && !(px == x && py == y) ensures Pixel(px, py) == old(Pixel(px, py)) {
          Inside(px, py, width, height, stride);
          Elsewhere(x, y, px, py, width, stride);
        }
      }
    }

    method Plot(x: int, y: int, color: Word)
      requires Valid()
      modifies pixels
      ensures forall px, py | Visible(px, py) ::
              Pixel(px, py) == if px == x && py == y then color else old(Pixel(px, py))
    {
      if x >= 0 && y >= 0 {
        PutPixel(x, y, color);
      }
    }

    /** The part of a rectangle that is on the screen. */
    method FillRect(x: nat, y: nat, w: nat, h: nat, color: Word)
      requires Valid()
      modifies pixels
      ensures forall px, py | Visible(px, py) ::
                Pixel(px, py) == if x <= px < x + w && y <= py < y + h then color else old(Pixel(px, py))
    {
      hide Framebuffer.Pixel;
      var x1 := if x + w < width then x + w else width;
      var y1 := if y + h < height then y + h else height;
      for row := y to if y <= y1 then y1 else y
        invariant forall px, py | Visible(px, py) ::
                    Pixel(px, py) == if x <= px < x + w && y <= py < row then color else old(Pixel(px, py))
      {
        for col := x to if x <= x1 then x1 else x
          invariant forall px, py | Visible(px, py) ::
                      Pixel(px, py) ==
                      if (x <= px < x + w && y <= py < row) || (x <= px < col && py == row)
                      then color else old(Pixel(px, py))
        {
          PutPixel(col, row, color);
        }
      }
    }

    /** The line's points are painted, those on the screen, and nothing else. */
    method DrawLine(x0: int, y0: int, x1: int, y1: int, color: Word) returns (ghost points: seq<(int, int)>)
      requires Valid()
      modifies pixels
      ensures points == Line(x0, y0, x1, y1)
      ensures forall px, py | Visible(px, py) ::
              Pixel(px, py) == if (px, py) in points then color else old(Pixel(px, py))
    {
      hide OnLine, LinePoint, Visible, Framebuffer.Pixel;
      var x, y := x0, y0;
      var dx: int, dy: int := Abs(x1 - x0), 0 - Abs(y1 - y0);
      var sx, sy := if x0 < x1 then 1 else -1, if y0 < y1 then 1 else -1;
      var err := dx + dy;
      ghost var a: nat, b: nat, i: nat, u: nat, v: nat := Abs(x1 - x0), Abs(y1 - y0), 0, 0, 0;
      points := [];
      LineStarts(a, b);
      while true
        invariant x == Along(x0, x1, u) && y == Along(y0, y1, v) && err == Error(a, b, u, v)
        invariant OnLine(a, b, i, u, v) && i <= Max(a, b) && (Max(a, b) == 0 ==> u == 0 && v == 0)
        invariant |points| == i && forall k | 0 <= k < i :: points[k] == LinePoint(x0, y0, x1, y1, k)
        invariant forall px, py | Visible(px, py) ::
                  Pixel(px, py) == if (px, py) in points then color else old(Pixel(px, py))
        decreases Max(a, b) - i
      {
        Plot(x, y, color);
        points := points + [(x, y)];
        PointOf(x0, y0, x1, y1, i, u, v);
        LineEnds(a, b, i, u, v);
        if x == x1 && y == y1 {
          break;
        }
        var e2 := 2 * err;
        LineStep(a, b, i, u, v);
        ErrorSteps(a, b, u, v);
        if e2 >= dy {
          err := err + dy;
          x := x + sx;
          u := u + 1;
        }
        ErrorSteps(a, b, u, v);
        if e2 <= dx {
          err := err + dx;
          y := y + sy;
          v := v + 1;
        }
        i := i + 1;
      }
    }

    /** The eight reflections of an octant point. */
    method PlotOctants(cx: int, cy: int, x: nat, y: nat, color: Word)
      requires Valid() && y <= x
      modifies pixels
      ensures forall px, py | Visible(px, py) ::
                Pixel(px, py) ==
                if Max(Abs(px - cx), Abs(py - cy)) == x && Min(Abs(px - cx), Abs(py - cy)) == y
                then color else old(Pixel(px, py))
    {
      var at := [(cx + x, cy + y), (cx - x, cy + y), (cx + x, cy - y), (cx - x, cy - y),
                 (cx + y, cy + x), (cx - y, cy + x), (cx + y, cy - x), (cx - y, cy - x)];
      for k := 0 to 8
        invariant forall px, py | Visible(px, py) ::
                  Pixel(px, py) == if (px, py) in at[..k] then color else old(Pixel(px, py))
      {
        Plot(at[k].0, at[k].1, color);
        assert at[..k + 1] == at[..k] + [at[k]];
      }
      forall px, py | Visible(px, py)
        ensures (px, py) in at <==> Max(Abs(px - cx), Abs(py - cy)) == x && Min(Abs(px - cx), Abs(py - cy)) == y
      {
        Reflections(cx, cy, x, y, px, py);
      }
      assert at[..8] == at;
    }

    /** Exactly the pixels of the outline are painted: the centre for radius 0, none below that. */
    method DrawCircle(cx: int, cy: int, r: int, color: Word)
      requires Valid()
      modifies pixels
      ensures forall px, py | Visible(px, py) ::
              Pixel(px, py) == if OnCircle(r, cx, cy, px, py) then color else old(Pixel(px, py))
    {
      var x, y := r, 0;
      var err := 1 - r;
      while x >= y
        invariant 0 <= y && (r >= 0 ==> -1 <= x) && (r < 0 ==> x == r)
        invariant r >= 1 ==> Sweeping(r, x, y, err)
        invariant r == 0 ==> (x, y, err) == (0, 0, 1) || (x, y) == (-1, 1)
        invariant forall px, py | Visible(px, py) ::
                    Pixel(px, py) ==
                    if OnCircle(r, cx, cy, px, py) && Min(Abs(px - cx), Abs(py - cy)) < y
                    then color else old(Pixel(px, py))
        decreases x - y
      {
        PlotOctants(cx, cy, x, y, color);
        forall px, py | Visible(px, py)
          ensures OnCircle(r, cx, cy, px, py) && Min(Abs(px - cx), Abs(py - cy)) == y <==>
                  Max(Abs(px - cx), Abs(py - cy)) == x && Min(Abs(px - cx), Abs(py - cy)) == y
        {
          var u, v := Max(Abs(px - cx), Abs(py - cy)), Min(Abs(px - cx), Abs(py - cy));
          if r > 0 && v == y && Ring(r, u, v) { RingUnique(r, x, u, y); }
        }
        if r > 0 { SweepStep(r, x, y, err); }
        y := y + 1;
        if err < 0 {
          err := err + (2 * y + 1);
        } else {
          x := x - 1;
          err := err + (2 * (y - x) + 1);
        }
      }
      forall px, py | Visible(px, py) && OnCircle(r, cx, cy, px, py) ensures Min(Abs(px - cx), Abs(py - cy)) < y {
        var u, v := Max(Abs(px - cx), Abs(py - cy)), Min(Abs(px - cx), Abs(py - cy));
        if r > 0 && v >= y { SweepEnds(r, x, y, err, u, v); }
      }
    }
  }

  lemma {:induction false} Reflections(cx: int, cy: int, x: nat, y: nat, px: int, py: int)
    requires y <= x
    ensures (px, py) in [(cx + x, cy + y), (cx - x, cy + y), (cx + x, cy - y), (cx - x, cy - y),
                         (cx + y, cy + x), (cx - y, cy + x), (cx + y, cy - x), (cx - y, cy - x)] <==>
            Max(Abs(px - cx), Abs(py - cy)) == x && Min(Abs(px - cx), Abs(py - cy)) == y
  {
  }

  lemma {:induction false} Inside(x: int, y: int, width: nat, height: nat, stride: nat)
    requires 0 <= x < width <= stride && 0 <= y < height
    ensures 0 <= y * stride + x < height * stride
  {
    MulMonotone(y + 1, height, stride);
    assert (y + 1) * stride == y * stride + stride;
  }

  lemma {:induction false} Elsewhere(x: nat, y: nat, px: nat, py: nat, width: nat, stride: nat)
    requires x < width <= stride && px < width && !(px == x && py == y)
    ensures py * stride + px != y * stride + x
  {
    if py < y {
      MulMonotone(py + 1, y, stride);
      assert (py + 1) * stride == py * stride + stride;
    } else if y < py {
      MulMonotone(y + 1, py, stride);
      assert (y + 1) * stride == y * stride + stride;
    }
  }

  // ----- lines -----

  /** How far the other axis has gone after `i` steps of the longer one: the exact quotient,
      rounded, halves up. */
  function Rounded(major: nat, minor: nat, i: nat): nat {
    if major == 0 then 0 else (2 * minor * i + major) / (2 * major)
  }

  /** `u` steps from `p` towards `q`. */
  function Along(p: int, q: int, u: nat): int { if p < q then p + u else p - u }

  function Error(a: nat, b: nat, u: nat, v: nat): int { a * (v + 1) - b * (u + 1) }

  lemma {:induction false} ErrorSteps(a: nat, b: nat, u: nat, v: nat)
    ensures Error(a, b, u + 1, v) == Error(a, b, u, v) - b
    ensures Error(a, b, u, v + 1) == Error(a, b, u, v) + a
    ensures Error(a, b, 0, 0) == a - b
  {
  }

  /** The `i`-th point of the line. */
  function LinePoint(x0: int, y0: int, x1: int, y1: int, i: nat): (int, int) {
    var a, b := Abs(x1 - x0), Abs(y1 - y0);
    if a >= b then (Along(x0, x1, i), Along(y0, y1, Rounded(a, b, i)))
      else (Along(x0, x1, Rounded(b, a, i)), Along(y0, y1, i))
  }

  /** One point for every step of the longer axis, both ends included. */
  function Line(x0: int, y0: int, x1: int, y1: int): (r: seq<(int, int)>)
    ensures |r| == Max(Abs(x1 - x0), Abs(y1 - y0)) + 1
  {
    seq(Max(Abs(x1 - x0), Abs(y1 - y0)) + 1, i requires i >= 0 => LinePoint(x0, y0, x1, y1, i))
  }

  /** After `i` steps along the longer axis the other is within half a step of the true line. */
  ghost predicate Near(major: nat, minor: nat, i: nat, m: nat) {
    var gap := 2 * (major * m - minor * i);
    0 <= gap + major && gap <= major && (major > 0 ==> 0 < gap + major)
  }

  ghost predicate OnLine(a: nat, b: nat, i: nat, u: nat, v: nat) {
    if a >= b then u == i && Near(a, b, i, v) else v == i && Near(b, a, i, u)
  }

  lemma {:induction false} LineStarts(a: nat, b: nat)
    ensures OnLine(a, b, 0, 0, 0)
  {
  }

  lemma {:induction false} NearRounded(major: nat, minor: nat, i: nat, m: nat)
    requires Near(major, minor, i, m) && (major == 0 ==> m == 0)
    ensures m == Rounded(major, minor, i)
  {
    if major > 0 {
      var n, d := 2 * minor * i + major, 2 * major;
      assert d * m == 2 * (major * m) && 2 * minor * i == 2 * (minor * i);
      Quotient(n, d, m);
    }
  }

  lemma {:induction false} Quotient(n: nat, d: nat, m: nat)
    requires d > 0 && d * m <= n < d * m + d
    ensures n / d == m
  {
    var q := n / d;
    if q < m {
      MulMonotone(q + 1, m, d);
      assert false;
    } else if q > m {
      MulMonotone(m + 1, q, d);
      assert false;
    }
  }

  lemma {:induction false} PointOf(x0: int, y0: int, x1: int, y1: int, i: nat, u: nat, v: nat)
    requires var a, b := Abs(x1 - x0), Abs(y1 - y0); OnLine(a, b, i, u, v) && (Max(a, b) == 0 ==> u == 0 && v == 0)
    ensures LinePoint(x0, y0, x1, y1, i) == (Along(x0, x1, u), Along(y0, y1, v))
  {
    var a, b := Abs(x1 - x0), Abs(y1 - y0);
    if a >= b { NearRounded(a, b, i, v); } else { NearRounded(b, a, i, u); }
  }

  /** The far end is reached after exactly as many steps as the longer axis is long. */
  lemma {:induction false} LineEnds(a: nat, b: nat, i: nat, u: nat, v: nat)
    requires OnLine(a, b, i, u, v) && i <= Max(a, b) && (Max(a, b) == 0 ==> u == 0 && v == 0)
    ensures i == Max(a, b) <==> u == a && v == b
  {
    if i == Max(a, b) {
      if a >= b { AtEnd(a, b, v); } else { AtEnd(b, a, u); }
    }
  }

  lemma {:induction false} AtEnd(major: nat, minor: nat, m: nat)
    requires Near(major, minor, major, m) && (major == 0 ==> m == minor)
    ensures m == minor
  {
    if major > 0 {
      assert major * m - minor * major == major * (m - minor);
      if m > minor {
        MulMonotone(1, m - minor, major);
        assert false;
      } else if m < minor {
        MulMonotone(1, minor - m, major);
        assert false;
      }
    }
  }

  /** Each turn of the loop steps the longer axis, and the other one as the error says. */
  lemma {:induction false} LineStep(a: nat, b: nat, i: nat, u: nat, v: nat)
    requires OnLine(a, b, i, u, v) && i < Max(a, b)
    ensures var err := Error(a, b, u, v);
            OnLine(a, b, i + 1, if 2 * err + b >= 0 then u + 1 else u, if 2 * err <= a then v + 1 else v)
  {
    var d := a * v - b * u;
    assert a * (v + 1) - b * (u + 1) == d + a - b;
    assert a * v - b * (u + 1) == d - b && a * (v + 1) - b * u == d + a;
  }

  lemma {:induction false} RoundedNear(major: nat, minor: nat, i: nat)
    requires major > 0
    ensures Near(major, minor, i, Rounded(major, minor, i))
  {
    var n, d, m := 2 * minor * i + major, 2 * major, Rounded(major, minor, i);
    assert n == d * m + n % d;
    assert d * m == 2 * (major * m) && 2 * minor * i == 2 * (minor * i);
  }

  /** Every point of a line is within half a step of the true line, the ends are exact, and
      each point is one step of the longer axis after the one before. */
  lemma {:induction false} LineExact(x0: int, y0: int, x1: int, y1: int, i: nat)
    requires i <= Max(Abs(x1 - x0), Abs(y1 - y0))
    ensures var a, b, p := Abs(x1 - x0), Abs(y1 - y0), Line(x0, y0, x1, y1)[i];
            2 * Abs(a * Abs(p.1 - y0) - b * Abs(p.0 - x0)) <= Max(a, b)
    ensures i == 0 ==> Line(x0, y0, x1, y1)[i] == (x0, y0)
    ensures i == Max(Abs(x1 - x0), Abs(y1 - y0)) <==> Line(x0, y0, x1, y1)[i] == (x1, y1)
  {
    var a, b := Abs(x1 - x0), Abs(y1 - y0);
    var major, minor := Max(a, b), Min(a, b);
    if major > 0 {
      RoundedNear(major, minor, i);
      var m := Rounded(major, minor, i);
      LineEnds(a, b, i, if a >= b then i else m, if a >= b then m else i);
      if i == 0 {
        Quotient(major, 2 * major, 0);
      }
    }
  }

  lemma {:induction false} LineSteps(x0: int, y0: int, x1: int, y1: int, i: nat)
    requires i < Max(Abs(x1 - x0), Abs(y1 - y0))
    ensures var p, q := Line(x0, y0, x1, y1)[i], Line(x0, y0, x1, y1)[i + 1];
            && Abs(q.0 - p.0) <= 1 && Abs(q.1 - p.1) <= 1
            && (if Abs(x1 - x0) >= Abs(y1 - y0) then Abs(q.0 - p.0) == 1 else Abs(q.1 - p.1) == 1)
  {
    var a, b := Abs(x1 - x0), Abs(y1 - y0);
    var major, minor := Max(a, b), Min(a, b);
    RoundedStep(major, minor, i);
  }

  lemma {:induction false} RoundedStep(major: nat, minor: nat, i: nat)
    requires major > 0 && minor <= major
    ensures Rounded(major, minor, i) <= Rounded(major, minor, i + 1) <= Rounded(major, minor, i) + 1
  {
    hide Rounded, Near;
    RoundedNear(major, minor, i);
    RoundedNear(major, minor, i + 1);
    NearStep(major, minor, i, Rounded(major, minor, i), Rounded(major, minor, i + 1));
  }

  lemma {:induction false} NearStep(major: nat, minor: nat, i: nat, m: nat, m2: nat)
    requires major > 0 && minor <= major && Near(major, minor, i, m) && Near(major, minor, i + 1, m2)
    ensures m <= m2 <= m + 1
  {
    var k := m2 - m;
    assert minor * (i + 1) == minor * i + minor;
    assert major * m2 == major * m + major * k;
    if k < 0 {
      MulAtMost(major, k, -1);
      assert false;
    } else if k > 1 {
      MulAtMost(major, 2, k);
      assert false;
    }
  }

  lemma {:induction false} MulAtMost(d: nat, k: int, n: int)
    requires k <= n
    ensures d * k <= d * n
  {
    MulMonotone(0, n - k, d);
    assert d * n == d * k + (n - k) * d;
  }

  // ----- circles -----

  /** The point is within half a pixel, in its longer direction, of the circle of radius `r`. */
  predicate Ring(r: int, x: int, y: int) { x * x - x + y * y < r * r <= x * x + x + y * y }

  /** The pixel is on the outline around (cx, cy); a circle without a radius is its centre. */
  predicate OnCircle(r: int, cx: int, cy: int, px: int, py: int) {
    if r <= 0 then r == 0 && px == cx && py == cy
    else Ring(r, Max(Abs(px - cx), Abs(py - cy)), Min(Abs(px - cx), Abs(py - cy)))
  }

  /** What the loop has at its top: the error term is exact, and the point is on the ring
      while it is in the octant. */
  ghost predicate Sweeping(r: int, x: int, y: int, err: int) {
    && err == x * x - x + (y + 1) * (y + 1) - r * r
    && 0 <= y && r * r <= x * x + x + y * y && (x >= y ==> Ring(r, x, y))
  }

  lemma {:induction false} SweepStep(r: int, x: int, y: int, err: int)
    requires Sweeping(r, x, y, err) && x >= y
    ensures if err < 0 then Sweeping(r, x, y + 1, err + 2 * (y + 1) + 1)
            else Sweeping(r, x - 1, y + 1, err + 2 * ((y + 1) - (x - 1)) + 1)
  {
    assert (y + 2) * (y + 2) == (y + 1) * (y + 1) + 2 * (y + 1) + 1;
    assert (x - 1) * (x - 1) == x * x - 2 * x + 1;
    assert (y + 1) * (y + 1) == y * y + 2 * y + 1;
  }

  /** On every row of the octant the ring has at most one point. */
  lemma {:induction false} RingUnique(r: int, x: int, x2: int, y: int)
    requires x >= 0 && x2 >= 0 && Ring(r, x, y) && Ring(r, x2, y)
    ensures x == x2
  {
    if x < x2 {
      Consecutive(x, x2);
      assert false;
    } else if x2 < x {
      Consecutive(x2, x);
      assert false;
    }
  }

  lemma {:induction false} Consecutive(x: int, z: int)
    requires 0 <= x < z
    ensures x * x + x <= z * z - z
  {
    MulMonotone(x + 1, z, x);
    MulMonotone(x, z - 1, z);
    assert x * x + x == (x + 1) * x && z * z - z == (z - 1) * z;
  }

  /** Once the sweep has left the octant, the ring has no more points in it. */
  lemma {:induction false} SweepEnds(r: int, x: int, y: int, err: int, u: int, v: int)
    requires Sweeping(r, x, y, err) && x < y && x >= -1 && y <= v <= u
    ensures !Ring(r, u, v)
  {
    hide Ring;
    SquareMonotone(y, v);
    if x == -1 {
      SquareGrows(u);
    } else {
      Consecutive(x, u);
    }
    Outside(r, x * x + x, y * y, u, v);
  }

  lemma {:induction false} SquareMonotone(y: nat, v: nat)
    requires y <= v
    ensures y * y <= v * v
  {
    MulMonotone(y, v, y);
    MulMonotone(y, v, v);
  }

  lemma {:induction false} SquareGrows(u: nat)
    ensures u <= u * u
  {
    if u > 0 { MulMonotone(1, u, u); }
  }

  lemma {:induction false} Outside(r: int, a: int, b: int, u: int, v: int)
    requires r * r <= a + b && a <= u * u - u && b <= v * v
    ensures !Ring(r, u, v)
  {
  }
}
