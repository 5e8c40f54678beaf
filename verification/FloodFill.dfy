/**
  Keying the background: a flood fill inward from the image border over pixels that match the
  average of the four corners.
 */
module FloodFill {
  datatype Color = Color(r: int, g: int, b: int)

  datatype Pixel = Pixel(x: nat, y: nat)

  /** `w * h` pixels, row by row. */
  datatype Image = Image(w: nat, h: nat, data: seq<Color>)

  predicate WellFormed(im: Image) {
    im.w > 0 && im.h > 0 && |im.data| == im.w * im.h
  }

  predicate Inside(im: Image, p: Pixel) {
    p.x < im.w && p.y < im.h
  }

  function Index(im: Image, p: Pixel): (i: nat)
    requires Inside(im, p)
    ensures i < im.w * im.h
  {
    IndexBounds(im.w, im.h, p.x, p.y);
    p.y * im.w + p.x
  }

  lemma IndexBounds(w: nat, h: nat, x: nat, y: nat)
    requires x < w && y < h
    ensures y * w + x < w * h
    ensures (y * w + x) % w == x && (y * w + x) / w == y
  {
    assert (y + 1) * w <= h * w by {
      MulMonotone(y + 1, h, w);
    }
    DivModUnique(y * w + x, w, y, x);
  }

  lemma MulMonotone(a: nat, b: nat, c: nat)
    requires a <= b
    ensures a * c <= b * c
  {
    assert b * c == a * c + (b - a) * c;
  }

  lemma DivModUnique(n: nat, d: nat, q: nat, r: nat)
    requires r < d && n == q * d + r
    ensures n / d == q && n % d == r
  {
    var q', r' := n / d, n % d;
    assert n == q' * d + r';
    if q' < q {
      MulMonotone(q' + 1, q, d);
    } else if q < q' {
      MulMonotone(q + 1, q', d);
    }
  }

  function At(im: Image, p: Pixel): Color
    requires WellFormed(im) && Inside(im, p)
  {
    im.data[Index(im, p)]
  }

  // ---- the backdrop ---------------------------------------------------------------------

  function Background(im: Image): Color
    requires WellFormed(im)
  {
    var c0, c1 := At(im, Pixel(0, 0)), At(im, Pixel(im.w - 1, 0));
    var c2, c3 := At(im, Pixel(0, im.h - 1)), At(im, Pixel(im.w - 1, im.h - 1));
    Color((c0.r + c1.r + c2.r + c3.r) / 4, (c0.g + c1.g + c2.g + c3.g) / 4, (c0.b + c1.b + c2.b + c3.b) / 4)
  }

  predicate Near(c: Color, bg: Color, tolerance: int) {
    (c.r - bg.r) * (c.r - bg.r) + (c.g - bg.g) * (c.g - bg.g) + (c.b - bg.b) * (c.b - bg.b)
    <= tolerance * tolerance * 3
  }

  predicate Matches(im: Image, tolerance: int, p: Pixel)
    requires WellFormed(im) && Inside(im, p)
  {
    Near(At(im, p), Background(im), tolerance)
  }

  /** A channel's value is the mean of four, rounded down. */
  predicate MeanOf(m: int, a: int, b: int, c: int, d: int) {
    4 * m <= a + b + c + d < 4 * m + 4
  }

  /** The pixels in the corners of the image, whose mean is the backdrop's colour. */
  lemma BackgroundIsMean(im: Image, tl: Pixel, tr: Pixel, bl: Pixel, br: Pixel)
    requires WellFormed(im) && Inside(im, tl) && Inside(im, tr) && Inside(im, bl) && Inside(im, br)
    requires forall p | Inside(im, p) :: tl.x <= p.x <= tr.x && tl.y <= p.y <= bl.y
    requires tl.x == bl.x && tr.x == br.x && tl.y == tr.y && bl.y == br.y
    ensures var bg := Background(im);
            && MeanOf(bg.r, At(im, tl).r, At(im, tr).r, At(im, bl).r, At(im, br).r)
            && MeanOf(bg.g, At(im, tl).g, At(im, tr).g, At(im, bl).g, At(im, br).g)
            && MeanOf(bg.b, At(im, tl).b, At(im, tr).b, At(im, bl).b, At(im, br).b)
  {
    assert Inside(im, Pixel(0, 0)) && Inside(im, Pixel(im.w - 1, im.h - 1));
    assert tl == Pixel(0, 0) && br == Pixel(im.w - 1, im.h - 1);
  }

  function Shade(c: Color, r: int, g: int, b: int): Color {
    Color(c.r + r, c.g + g, c.b + b)
  }

  lemma SquaresOrder(a: nat, t: nat)
    ensures a * a <= t * t <==> a <= t
  {
    if a <= t {
      MulMonotone(a, t, a);
      MulMonotone(a, t, t);
      assert a * t == t * a;
    } else {
      MulMonotone(t, a, t);
      MulMonotone(t + 1, a, a);
      assert a * t == t * a && (t + 1) * a == t * a + a;
    }
  }

  lemma SquareOfNegative(d: int)
    ensures (-d) * (-d) == d * d
  {
  }

  /** The tolerance is a distance per channel: a colour that differs by `d` in every channel matches exactly up to it,
      and what differs less, or the other way round, matches with it. */
  lemma NearIff(c: Color, d: int, e: int, tolerance: nat)
    ensures Near(Shade(c, d, d, d), c, tolerance) <==> d <= tolerance && -d <= tolerance
    ensures Near(Shade(c, d, 0, e), c, tolerance) <==> Near(Shade(c, e, d, 0), c, tolerance)
    ensures Near(Shade(c, d, 0, e), c, tolerance) <==> Near(c, Shade(c, 0, e, d), tolerance)
    ensures Near(Shade(c, d, 0, 0), c, tolerance) <==> d * d <= 3 * (tolerance * tolerance)
  {
    SquaresOrder(if d >= 0 then d else -d, tolerance);
    SquareOfNegative(d);
    SquareOfNegative(e);
    var same := Shade(c, d, d, d);
    assert same.r - c.r == d && same.g - c.g == d && same.b - c.b == d;
  }

  // ---- what should be keyed out ------------------------------------------------------------

  predicate OnBorder(im: Image, p: Pixel) {
    Inside(im, p) && (p.x == 0 || p.x == im.w - 1 || p.y == 0 || p.y == im.h - 1)
  }

  predicate Adjacent(p: Pixel, q: Pixel) {
    || (p.y == q.y && (p.x + 1 == q.x || q.x + 1 == p.x))
    || (p.x == q.x && (p.y + 1 == q.y || q.y + 1 == p.y))
  }

  /** A path of matching pixels from the border to `p`, each adjacent to the next. */
  ghost predicate BackdropPath(im: Image, tolerance: int, path: seq<Pixel>, p: Pixel)
    requires WellFormed(im)
  {
    && path != [] && OnBorder(im, path[0]) && path[|path| - 1] == p
    && (forall i | 0 <= i < |path| :: Inside(im, path[i]) && Matches(im, tolerance, path[i]))
    && (forall i | 0 < i < |path| :: Adjacent(path[i - 1], path[i]))
  }

  ghost predicate Backdrop(im: Image, tolerance: int, p: Pixel)
    requires WellFormed(im)
  {
    exists path :: BackdropPath(im, tolerance, path, p)
  }

  lemma BackdropSpreads(im: Image, tolerance: int, p: Pixel, q: Pixel)
    requires WellFormed(im) && Backdrop(im, tolerance, p)
    requires Inside(im, q) && Adjacent(p, q) && Matches(im, tolerance, q)
    ensures Backdrop(im, tolerance, q)
  {
    var path :| BackdropPath(im, tolerance, path, p);
    assert BackdropPath(im, tolerance, path + [q], q);
  }

  lemma BorderIsBackdrop(im: Image, tolerance: int, p: Pixel)
    requires WellFormed(im) && OnBorder(im, p) && Matches(im, tolerance, p)
    ensures Backdrop(im, tolerance, p)
  {
    assert BackdropPath(im, tolerance, [p], p);
  }

  /** A set of pixels that holds every matching border pixel and every matching neighbour of a
      member holds the whole backdrop. */
  ghost predicate ClosedFill(im: Image, tolerance: int, alpha: seq<int>)
    requires WellFormed(im) && |alpha| == im.w * im.h
  {
    && (forall p | OnBorder(im, p) && Matches(im, tolerance, p) :: alpha[Index(im, p)] == 0)
    && (forall p, q | && Inside(im, p) && Inside(im, q) && Adjacent(p, q)
                      && alpha[Index(im, p)] == 0 && Matches(im, tolerance, q) :: alpha[Index(im, q)] == 0)
  }

  lemma {:induction false} ClosedFillHoldsPath(im: Image, tolerance: int, alpha: seq<int>, path: seq<Pixel>, p: Pixel)
    requires WellFormed(im) && |alpha| == im.w * im.h && ClosedFill(im, tolerance, alpha)
    requires BackdropPath(im, tolerance, path, p)
    ensures alpha[Index(im, p)] == 0
    decreases |path|
  {
    if |path| > 1 {
      var init := path[..|path| - 1];
      assert BackdropPath(im, tolerance, init, path[|path| - 2]);
      ClosedFillHoldsPath(im, tolerance, alpha, init, path[|path| - 2]);
      assert Adjacent(path[|path| - 2], path[|path| - 1]);
    }
  }

  // ---- the fill ---------------------------------------------------------------------------

  function Unseen(seen: seq<bool>): nat {
    if seen == [] then 0 else (if seen[0] then 0 else 1) + Unseen(seen[1..])
  }

  lemma {:induction false} SeeingOneMore(seen: seq<bool>, i: nat)
    requires i < |seen| && !seen[i]
    ensures Unseen(seen[i := true]) < Unseen(seen)
  {
    if i > 0 {
      SeeingOneMore(seen[1..], i - 1);
      assert seen[i := true][1..] == seen[1..][i - 1 := true];
    } else {
      assert seen[0 := true][1..] == seen[1..];
    }
  }

  /** A pixel the fill may legitimately visit: if it matches, it is backdrop. */
  ghost predicate Justified(im: Image, tolerance: int, p: Pixel)
    requires WellFormed(im)
  {
    Inside(im, p) && (Matches(im, tolerance, p) ==> Backdrop(im, tolerance, p))
  }

  /** Everything that must be visited has been, or is still on the stack. */
  ghost predicate Pending(im: Image, seen: seq<bool>, stack: seq<Pixel>, p: Pixel)
    requires |seen| == im.w * im.h && Inside(im, p)
  {
    seen[Index(im, p)] || p in stack
  }

  ghost predicate StackJustified(im: Image, tolerance: int, stack: seq<Pixel>)
    requires WellFormed(im)
  {
    forall p | p in stack :: Justified(im, tolerance, p)
  }

  /** A pixel is keyed out exactly when it was seen and matches; only backdrop is keyed out. */
  ghost predicate AlphaFollowsSeen(im: Image, tolerance: int, alpha: seq<int>, seen: seq<bool>)
    requires WellFormed(im) && |alpha| == |seen| == im.w * im.h
  {
    forall p | Inside(im, p) ::
      && alpha[Index(im, p)] == (if seen[Index(im, p)] && Matches(im, tolerance, p) then 0 else 255)
      && (alpha[Index(im, p)] == 0 ==> Backdrop(im, tolerance, p))
  }

  ghost predicate NothingForgotten(im: Image, alpha: seq<int>, seen: seq<bool>, stack: seq<Pixel>)
    requires |alpha| == |seen| == im.w * im.h
  {
    && (forall p | OnBorder(im, p) :: Pending(im, seen, stack, p))
    && (forall p, q | && Inside(im, p) && Inside(im, q) && Adjacent(p, q) && alpha[Index(im, p)] == 0 ::
          Pending(im, seen, stack, q))
  }

  ghost predicate FillState(im: Image, tolerance: int, alpha: seq<int>, seen: seq<bool>, stack: seq<Pixel>)
    requires WellFormed(im)
  {
    && |alpha| == |seen| == im.w * im.h
    && StackJustified(im, tolerance, stack)
    && AlphaFollowsSeen(im, tolerance, alpha, seen)
    && NothingForgotten(im, alpha, seen, stack)
  }

  function Neighbours(im: Image, p: Pixel): seq<Pixel>
    requires Inside(im, p)
  {
    (if p.x > 0 then [Pixel(p.x - 1, p.y)] else [])
    + (if p.x < im.w - 1 then [Pixel(p.x + 1, p.y)] else [])
    + (if p.y > 0 then [Pixel(p.x, p.y - 1)] else [])
    + (if p.y < im.h - 1 then [Pixel(p.x, p.y + 1)] else [])
  }

  lemma NeighboursAreAdjacent(im: Image, p: Pixel)
    requires Inside(im, p)
    ensures forall q :: q in Neighbours(im, p) <==> Inside(im, q) && Adjacent(p, q)
  {
  }

  /** The border is where a pixel lacks one of its four neighbours. */
  lemma BorderIff(im: Image, p: Pixel)
    requires Inside(im, p)
    ensures OnBorder(im, p) <==> |Neighbours(im, p)| < 4
  {
  }

  lemma DistinctIndices(im: Image, p: Pixel, q: Pixel)
    requires Inside(im, p) && Inside(im, q) && Index(im, p) == Index(im, q)
    ensures p == q
  {
    IndexBounds(im.w, im.h, p.x, p.y);
    IndexBounds(im.w, im.h, q.x, q.y);
  }

  lemma UpdateAt<T>(im: Image, s: seq<T>, p: Pixel, v: T)
    requires |s| == im.w * im.h && Inside(im, p)
    ensures forall q | Inside(im, q) ::
              s[Index(im, p) := v][Index(im, q)] == if q == p then v else s[Index(im, q)]
  {
    forall q | Inside(im, q) && Index(im, q) == Index(im, p)
      ensures q == p
    {
      DistinctIndices(im, p, q);
    }
  }

  /** What leaves the stack was seen; what was pending stays pending. */
  lemma StillPending(im: Image, seen: seq<bool>, stack: seq<Pixel>, p: Pixel, more: seq<Pixel>)
    requires |seen| == im.w * im.h && stack != [] && p == stack[|stack| - 1] && Inside(im, p)
    ensures forall q | Inside(im, q) && Pending(im, seen, stack, q) ::
              Pending(im, seen[Index(im, p) := true], stack[..|stack| - 1] + more, q)
  {
    var rest := stack[..|stack| - 1];
    assert stack == rest + [p];
    UpdateAt(im, seen, p, true);
    forall q | Inside(im, q) && Pending(im, seen, stack, q)
      ensures Pending(im, seen[Index(im, p) := true], rest + more, q)
    {
      assert q in stack ==> q == p || q in rest;
    }
  }

  /** Popping a pixel that was seen before. */
  lemma PopSeen(im: Image, tolerance: int, alpha: seq<int>, seen: seq<bool>, stack: seq<Pixel>)
    requires WellFormed(im) && FillState(im, tolerance, alpha, seen, stack) && stack != []
    requires Inside(im, stack[|stack| - 1]) && seen[Index(im, stack[|stack| - 1])]
    ensures FillState(im, tolerance, alpha, seen, stack[..|stack| - 1])
  {
    var p := stack[|stack| - 1];
    StillPending(im, seen, stack, p, []);
    assert seen[Index(im, p) := true] == seen;
    assert stack[..|stack| - 1] + [] == stack[..|stack| - 1];
  }

  /** Visiting a pixel that does not match. */
  lemma VisitOther(im: Image, tolerance: int, alpha: seq<int>, seen: seq<bool>, stack: seq<Pixel>)
    requires WellFormed(im) && FillState(im, tolerance, alpha, seen, stack) && stack != []
    requires Inside(im, stack[|stack| - 1]) && !Matches(im, tolerance, stack[|stack| - 1])
    ensures FillState(im, tolerance, alpha, seen[Index(im, stack[|stack| - 1]) := true], stack[..|stack| - 1])
  {
    var p := stack[|stack| - 1];
    var seen' := seen[Index(im, p) := true];
    StillPending(im, seen, stack, p, []);
    assert stack[..|stack| - 1] + [] == stack[..|stack| - 1];
    SeenOther(im, tolerance, alpha, seen, p);
  }

  lemma SeenOther(im: Image, tolerance: int, alpha: seq<int>, seen: seq<bool>, p: Pixel)
    requires WellFormed(im) && |alpha| == |seen| == im.w * im.h && AlphaFollowsSeen(im, tolerance, alpha, seen)
    requires Inside(im, p) && !Matches(im, tolerance, p)
    ensures AlphaFollowsSeen(im, tolerance, alpha, seen[Index(im, p) := true])
  {
    UpdateAt(im, seen, p, true);
  }

  lemma SeenMatch(im: Image, tolerance: int, alpha: seq<int>, seen: seq<bool>, p: Pixel)
    requires WellFormed(im) && |alpha| == |seen| == im.w * im.h && AlphaFollowsSeen(im, tolerance, alpha, seen)
    requires Inside(im, p) && Matches(im, tolerance, p) && Backdrop(im, tolerance, p)
    ensures AlphaFollowsSeen(im, tolerance, alpha[Index(im, p) := 0], seen[Index(im, p) := true])
  {
    UpdateAt(im, seen, p, true);
    UpdateAt(im, alpha, p, 0);
  }

  lemma NeighboursJustified(im: Image, tolerance: int, p: Pixel)
    requires WellFormed(im) && Inside(im, p) && Backdrop(im, tolerance, p)
    ensures StackJustified(im, tolerance, Neighbours(im, p))
  {
    NeighboursAreAdjacent(im, p);
    forall q | q in Neighbours(im, p)
      ensures Justified(im, tolerance, q)
    {
      if Matches(im, tolerance, q) { BackdropSpreads(im, tolerance, p, q); }
    }
  }

  lemma NeighboursPending(im: Image, alpha: seq<int>, seen: seq<bool>, stack: seq<Pixel>)
    requires |alpha| == |seen| == im.w * im.h && NothingForgotten(im, alpha, seen, stack)
    requires stack != [] && Inside(im, stack[|stack| - 1])
    ensures var p := stack[|stack| - 1];
            NothingForgotten(im, alpha[Index(im, p) := 0], seen[Index(im, p) := true],
                             stack[..|stack| - 1] + Neighbours(im, p))
  {
    var p := stack[|stack| - 1];
    StillPending(im, seen, stack, p, Neighbours(im, p));
    NeighboursAreAdjacent(im, p);
    UpdateAt(im, alpha, p, 0);
  }

  /** Visiting a matching pixel: it is keyed out and its neighbours are pushed. */
  lemma VisitMatch(im: Image, tolerance: int, alpha: seq<int>, seen: seq<bool>, stack: seq<Pixel>)
    requires WellFormed(im) && FillState(im, tolerance, alpha, seen, stack) && stack != []
    requires Inside(im, stack[|stack| - 1]) && Matches(im, tolerance, stack[|stack| - 1])
    ensures var p := stack[|stack| - 1];
            FillState(im, tolerance, alpha[Index(im, p) := 0], seen[Index(im, p) := true],
                      stack[..|stack| - 1] + Neighbours(im, p))
  {
    var p := stack[|stack| - 1];
    assert p in stack;
    SeenMatch(im, tolerance, alpha, seen, p);
    NeighboursJustified(im, tolerance, p);
    NeighboursPending(im, alpha, seen, stack);
  }

  lemma FinishedFill(im: Image, tolerance: int, alpha: seq<int>, seen: seq<bool>)
    requires WellFormed(im) && FillState(im, tolerance, alpha, seen, [])
    ensures forall p | Inside(im, p) ::
              alpha[Index(im, p)] == if Backdrop(im, tolerance, p) then 0 else 255
  {
    assert ClosedFill(im, tolerance, alpha);
    forall p | Inside(im, p) && Backdrop(im, tolerance, p)
      ensures alpha[Index(im, p)] == 0
    {
      var path :| BackdropPath(im, tolerance, path, p);
      ClosedFillHoldsPath(im, tolerance, alpha, path, p);
    }
  }

  /** The border pixels, as the two initial comprehensions list them. */
  method BorderStack(im: Image) returns (stack: seq<Pixel>)
    requires WellFormed(im)
    ensures forall p :: p in stack <==> OnBorder(im, p)
  {
    stack := [];
    for x := 0 to im.w
      invariant forall p :: p in stack <==> p.x < x && (p.y == 0 || p.y == im.h - 1)
    {
      stack := stack + [Pixel(x, 0), Pixel(x, im.h - 1)];
    }
    for y := 0 to im.h
      invariant forall p :: p in stack <==>
                  || (p.x < im.w && (p.y == 0 || p.y == im.h - 1))
                  || (p.y < y && (p.x == 0 || p.x == im.w - 1))
    {
      stack := stack + [Pixel(0, y), Pixel(im.w - 1, y)];
    }
  }

  /** Pop a pixel; the first time it is visited and matches, key it out and push its neighbours. */
  method VisitTop(im: Image, tolerance: int, alpha: array<int>, seen: array<bool>, stack: seq<Pixel>)
    returns (stack': seq<Pixel>)
    requires WellFormed(im) && alpha.Length == seen.Length == im.w * im.h && stack != []
    requires FillState(im, tolerance, alpha[..], seen[..], stack)
    modifies alpha, seen
    ensures FillState(im, tolerance, alpha[..], seen[..], stack')
    ensures Unseen(seen[..]) < Unseen(old(seen[..]))
            || (Unseen(seen[..]) == Unseen(old(seen[..])) && |stack'| < |stack|)
  {
    var p := stack[|stack| - 1];
    assert p in stack;
    var i := Index(im, p);
    ghost var alpha0, seen0 := alpha[..], seen[..];
    if seen[i] {
      PopSeen(im, tolerance, alpha0, seen0, stack);
      return stack[..|stack| - 1];
    }
    SeeingOneMore(seen0, i);
    seen[i] := true;
    assert seen[..] == seen0[i := true];
    if !Matches(im, tolerance, p) {
      VisitOther(im, tolerance, alpha0, seen0, stack);
      return stack[..|stack| - 1];
    }
    alpha[i] := 0;
    assert alpha[..] == alpha0[i := 0];
    VisitMatch(im, tolerance, alpha0, seen0, stack);
    stack' := stack[..|stack| - 1] + Neighbours(im, p);
  }

  lemma StartsFill(im: Image, tolerance: int, alpha: seq<int>, seen: seq<bool>, stack: seq<Pixel>)
    requires WellFormed(im) && |alpha| == |seen| == im.w * im.h
    requires (forall i | 0 <= i < |alpha| :: alpha[i] == 255) && (forall i | 0 <= i < |seen| :: !seen[i])
    requires forall p :: p in stack <==> OnBorder(im, p)
    ensures FillState(im, tolerance, alpha, seen, stack)
  {
    forall p | p in stack
      ensures Justified(im, tolerance, p)
    {
      if Matches(im, tolerance, p) { BorderIsBackdrop(im, tolerance, p); }
    }
  }

  /** The alpha channel: 0 exactly on the backdrop, 255 everywhere else. */
  method KeyBackground(im: Image, tolerance: int) returns (alpha: array<int>)
    requires WellFormed(im)
    ensures alpha.Length == im.w * im.h
    ensures forall p | Inside(im, p) ::
              alpha[Index(im, p)] == if Backdrop(im, tolerance, p) then 0 else 255
  {
    alpha := new int[im.w * im.h](_ => 255);
    var seen := new bool[im.w * im.h](_ => false);
    var stack := BorderStack(im);
    StartsFill(im, tolerance, alpha[..], seen[..], stack);
    while stack != []
      invariant alpha.Length == seen.Length == im.w * im.h
      invariant FillState(im, tolerance, alpha[..], seen[..], stack)
      decreases Unseen(seen[..]), |stack|
    {
      stack := VisitTop(im, tolerance, alpha, seen, stack);
    }
    FinishedFill(im, tolerance, alpha[..], seen[..]);
  }
}
