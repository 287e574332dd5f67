/** The slider arithmetic the three range widgets share: the step, the clamps a
    handle applies when it meets the other handle, and one move of a track drag,
    which shifts the window [lo, hi] by the pointer offset and stops at the edges
    of the domain [min, max]. */
module RangeSlider {
  import opened FilterModel

  /** The selected window of a two-handle slider. */
  datatype Window = Window(lo: real, hi: real)

  /** The window is ordered and lies inside the domain. */
  predicate Within(min: real, w: Window, max: real)
  {
    min <= w.lo <= w.hi <= max
  }

  /** `calculateStep`: one hundredth of the domain, or 1 for a single-point domain. */
  function CalculateStep(min: real, max: real): (r: real)
    ensures min != max ==> 100.0 * r == max - min
    ensures min == max ==> r == 1.0
    ensures min <= max ==> r > 0.0
  {
    if max == min then 1.0 else (max - min) / 100.0
  }

  /** A hundred steps cover the domain exactly, and a step is positive whenever the
      domain is not reversed. */
  lemma StepSpansDomain(min: real, max: real)
    ensures min != max ==> min + 100.0 * CalculateStep(min, max) == max
    ensures min <= max ==> CalculateStep(min, max) > 0.0
  {
  }

  /** The lower handle moved to `v`: it is held back at `hi` (`value >= hi ? hi : value`,
      also `Math.min(value, hi)`). */
  function ClampBelow(v: real, hi: real): (r: real)
    ensures r <= hi && r <= v && (r == v || r == hi)
  {
    if v >= hi then hi else v
  }

  /** The upper handle moved to `v`: it is held back at `lo` (`Math.max(value, lo)`). */
  function ClampAbove(v: real, lo: real): (r: real)
    ensures r >= lo && r >= v && (r == v || r == lo)
  {
    if v <= lo then lo else v
  }

  /** The upper handle of the tool-panel date filter as written: `value >= lo ? lo : value`. */
  function ClampMaxAsWritten(v: real, lo: real): (r: real)
    ensures r <= lo && (r == v || r == lo)
  {
    if v >= lo then lo else v
  }

  /** The wired upper handle can never rise above the lower handle, and moving it
      left of the lower handle inverts the window. */
  lemma ClampMaxAsWrittenInverts()
    ensures ClampMaxAsWritten(3.0, 5.0) == 3.0 < 5.0
    ensures ClampMaxAsWritten(8.0, 5.0) == 5.0
    ensures ClampAbove(3.0, 5.0) == 5.0 && ClampAbove(8.0, 5.0) == 8.0
  {
  }

  /** Either handle clamp keeps an ordered window ordered. */
  lemma ClampsKeepOrder(w: Window, v: real)
    requires w.lo <= w.hi
    ensures ClampBelow(v, w.hi) <= w.hi
    ensures w.lo <= ClampAbove(v, w.lo)
  {
  }

  /** One pointer move of the number filter and of the grid date filter, by offset
      `s` (pixels times value per pixel): inside the domain the window shifts by `-s`;
      otherwise the lower edge is stopped at `min`, then the upper edge at `max`,
      each keeping the width. */
  function ShiftStep(min: real, max: real, w: Window, s: real): (r: Window)
    ensures r.hi - r.lo == w.hi - w.lo
    ensures Within(min, w, max) ==> Within(min, r, max)
  {
    if w.lo - s > min && w.hi - s < max then Window(w.lo - s, w.hi - s)
    else
      var w1 := if w.lo - s < min then Window(min, w.hi - (w.lo - min)) else w;
      if w1.hi - s > max then Window(w1.lo - (w1.hi - max), max) else w1
  }

  /** One pointer move of the tool-panel date filter as written. The third branch
      (upper edge) calls its boundary helper with the bounds swapped, so the state
      and the handler's running locals differ: it returns both. */
  function EdgeStepAsWritten(min: real, max: real, w: Window, s: real): (r: (Window, Window))
    ensures w.lo - s > min && w.hi - s < max ==> r.0 == r.1 == Window(w.lo - s, w.hi - s)
  {
    if w.lo - s > min && w.hi - s < max then
      (Window(w.lo - s, w.hi - s), Window(w.lo - s, w.hi - s))
    else if w.lo - s < min && w.lo > min then
      (Window(min, w.hi - (w.lo - min)), Window(min, w.hi - (w.lo - min)))
    else if w.hi - s > max && w.hi < max then
      var delta := w.hi - max;
      (Window(max, w.lo - delta), Window(max, w.hi - delta))
    else
      (w, w)
  }

  /** Dragging into the upper edge puts the shown lower bound at `max` and collapses
      the handler's window onto `max`, which is what mouse-up then commits; with
      the window inside the domain the shown window is inverted unless it was
      already a point. */
  lemma EdgeStepAsWrittenCollapses(min: real, max: real, w: Window, s: real)
    requires Within(min, w, max)
    requires !(w.lo - s > min && w.hi - s < max) && !(w.lo - s < min && w.lo > min)
    requires w.hi - s > max && w.hi < max
    ensures EdgeStepAsWritten(min, max, w, s).1 == Window(max, max)
    ensures EdgeStepAsWritten(min, max, w, s).0.lo == max
    ensures w.lo < w.hi ==> EdgeStepAsWritten(min, max, w, s).0.hi < max
  {
  }

  /** The smallest case: domain 0..100, window 40..90, pointer 20 px to the right
      at one value unit per pixel. */
  lemma EdgeStepAsWrittenExample()
    ensures EdgeStepAsWritten(0.0, 100.0, Window(40.0, 90.0), -20.0)
            == (Window(100.0, 50.0), Window(100.0, 100.0))
    ensures EdgeStep(0.0, 100.0, Window(40.0, 90.0), -20.0) == Window(50.0, 100.0)
  {
  }

  /** One pointer move of the tool-panel date filter with the upper edge stopping the
      window at `max` like the lower edge stops it at `min`. */
  function EdgeStep(min: real, max: real, w: Window, s: real): (r: Window)
    ensures r.hi - r.lo == w.hi - w.lo
    ensures Within(min, w, max) ==> Within(min, r, max)
  {
    if w.lo - s > min && w.hi - s < max then Window(w.lo - s, w.hi - s)
    else if w.lo - s < min && w.lo > min then Window(min, w.hi - (w.lo - min))
    else if w.hi - s > max && w.hi < max then Window(w.lo + (max - w.hi), max)
    else w
  }

  /** The corrected move agrees with the written one everywhere except at the
      upper edge. */
  lemma EdgeStepAgrees(min: real, max: real, w: Window, s: real)
    ensures !(w.hi - s > max && w.hi < max) || (w.lo - s > min && w.hi - s < max) || (w.lo - s < min && w.lo > min)
            ==> EdgeStepAsWritten(min, max, w, s) == (EdgeStep(min, max, w, s), EdgeStep(min, max, w, s))
  {
  }

  /** The pointer position before move `k`: the press position, then each move's. */
  function LastX(x0: real, xs: seq<real>): real
  {
    if xs == [] then x0 else xs[|xs| - 1]
  }

  /** A pointer distance in pixels converted to value units (`dt * xNew`). */
  function Scaled(dt: real, dx: real): real { dt * dx }

  /** The value offsets of the pointer moves `xs` of a drag pressed at `x0`, with
      `dt` value units per pixel: each move's distance from the previous position. */
  function Offsets(dt: real, x0: real, xs: seq<real>): (r: seq<real>)
    ensures |r| == |xs|
    decreases |xs|
  {
    if xs == [] then []
    else
      var prev := xs[..|xs| - 1];
      Offsets(dt, x0, prev) + [Scaled(dt, LastX(x0, prev) - xs[|xs| - 1])]
  }

  lemma OffsetsSnoc(dt: real, x0: real, ys: seq<real>)
    requires ys != []
    ensures Offsets(dt, x0, ys) == Offsets(dt, x0, ys[..|ys| - 1]) + [Scaled(dt, LastX(x0, ys[..|ys| - 1]) - ys[|ys| - 1])]
  {
  }

  /** Unfolding the offsets by the next move. */
  lemma OffsetsNext(dt: real, x0: real, xs: seq<real>, i: nat)
    requires i < |xs|
    ensures Offsets(dt, x0, xs[..i + 1]) == Offsets(dt, x0, xs[..i]) + [Scaled(dt, LastX(x0, xs[..i]) - xs[i])]
  {
    var ys := xs[..i + 1];
    OffsetsSnoc(dt, x0, ys);
    assert ys[..|ys| - 1] == xs[..i];
    assert ys[|ys| - 1] == xs[i];
    assert LastX(x0, ys[..|ys| - 1]) == LastX(x0, xs[..i]);
    assert Offsets(dt, x0, ys[..|ys| - 1]) == Offsets(dt, x0, xs[..i]);
    var a := Scaled(dt, LastX(x0, ys[..|ys| - 1]) - ys[|ys| - 1]);
    var b := Scaled(dt, LastX(x0, xs[..i]) - xs[i]);
    assert a == b;
  }

  /** The move of the number filter and grid date filter, or of the tool-panel date filter. */
  function Move(edge: bool, min: real, max: real, w: Window, s: real): (r: Window)
    ensures r.hi - r.lo == w.hi - w.lo
    ensures Within(min, w, max) ==> Within(min, r, max)
  {
    if edge then EdgeStep(min, max, w, s) else ShiftStep(min, max, w, s)
  }

  /** The window after the moves with value offsets `ss`; `edge` selects the
      tool-panel date filter's move. */
  function Drag(min: real, max: real, w: Window, ss: seq<real>, edge: bool): (r: Window)
    decreases |ss|
  {
    if ss == [] then w
    else Move(edge, min, max, Drag(min, max, w, ss[..|ss| - 1], edge), ss[|ss| - 1])
  }

  /** The commit a window change makes: a `RangeAnd` of the new window, when it moved. */
  function Changed(before: Window, after: Window): (r: seq<Model>)
    ensures r == [] <==> after == before
    ensures r != [] ==> r == [RangeAnd(after.lo, after.hi)]
  {
    if after != before then [RangeAnd(after.lo, after.hi)] else []
  }

  /** The commits a drag of the number filter makes: one `RangeAnd` per move that
      changed the window, since its commit effect runs after each render. */
  function DragCommits(min: real, max: real, w: Window, ss: seq<real>): (r: seq<Model>)
    ensures |r| <= |ss|
    decreases |ss|
  {
    if ss == [] then []
    else
      var prev := ss[..|ss| - 1];
      DragCommits(min, max, w, prev) + Changed(Drag(min, max, w, prev, false), Drag(min, max, w, ss, false))
  }

  /** Extending a drag by one more move. */
  lemma DragNext(min: real, max: real, w: Window, ss: seq<real>, s: real, edge: bool)
    ensures Drag(min, max, w, ss + [s], edge) == Move(edge, min, max, Drag(min, max, w, ss, edge), s)
    ensures DragCommits(min, max, w, ss + [s])
            == DragCommits(min, max, w, ss) + Changed(Drag(min, max, w, ss, false), Drag(min, max, w, ss + [s], false))
  {
    assert (ss + [s])[..|ss|] == ss;
  }

  /** One turn of a drag loop: with the pointer last at `xStart`, move `i` adds the
      offset `s` and leaves the pointer at `xs[i]`. */
  lemma DragLoopStep(min: real, max: real, dt: real, x0: real, w0: Window, xs: seq<real>, i: nat,
                     ss: seq<real>, xStart: real, s: real, edge: bool)
    requires i < |xs| && ss == Offsets(dt, x0, xs[..i]) && xStart == LastX(x0, xs[..i])
    requires s == Scaled(dt, xStart - xs[i])
    ensures LastX(x0, xs[..i + 1]) == xs[i]
    ensures Offsets(dt, x0, xs[..i + 1]) == ss + [s]
    ensures Drag(min, max, w0, ss + [s], edge) == Move(edge, min, max, Drag(min, max, w0, ss, edge), s)
    ensures DragCommits(min, max, w0, ss + [s])
            == DragCommits(min, max, w0, ss) + Changed(Drag(min, max, w0, ss, false), Drag(min, max, w0, ss + [s], false))
  {
    OffsetsNext(dt, x0, xs, i);
    DragNext(min, max, w0, ss, s, edge);
  }

  /** A drag never changes the width of the window. */
  lemma {:induction false} DragKeepsWidth(min: real, max: real, w: Window, ss: seq<real>, edge: bool)
    ensures Drag(min, max, w, ss, edge).hi - Drag(min, max, w, ss, edge).lo == w.hi - w.lo
  {
    if ss != [] {
      DragKeepsWidth(min, max, w, ss[..|ss| - 1], edge);
    }
  }

  /** A drag that starts inside the domain stays inside it after every move. */
  lemma {:induction false} DragStaysWithin(min: real, max: real, w: Window, ss: seq<real>, edge: bool)
    requires Within(min, w, max)
    ensures Within(min, Drag(min, max, w, ss, edge), max)
  {
    if ss != [] {
      DragStaysWithin(min, max, w, ss[..|ss| - 1], edge);
    }
  }

  /** Every window a drag commits lies inside the domain and has the dragged width,
      and the last one is where the drag ends. */
  lemma {:induction false} DragCommitsWithin(min: real, max: real, w: Window, ss: seq<real>)
    requires Within(min, w, max)
    ensures forall m :: m in DragCommits(min, max, w, ss) ==>
              m.RangeAnd? && min <= m.lo <= m.hi <= max && m.hi - m.lo == w.hi - w.lo
    ensures var c := DragCommits(min, max, w, ss);
      c != [] ==> c[|c| - 1] == RangeAnd(Drag(min, max, w, ss, false).lo, Drag(min, max, w, ss, false).hi)
  {
    if ss != [] {
      var prev := ss[..|ss| - 1];
      DragCommitsWithin(min, max, w, prev);
      DragStaysWithin(min, max, w, ss, false);
      DragKeepsWidth(min, max, w, ss, false);
    }
  }

  /** The body of `onMouseMove` on the running window `minV..maxV`, offset `s`. */
  method MoveWindow(min: real, max: real, minV0: real, maxV0: real, s: real) returns (minV: real, maxV: real)
    ensures Window(minV, maxV) == ShiftStep(min, max, Window(minV0, maxV0), s)
  {
    minV, maxV := minV0, maxV0;
    if minV - s > min && maxV - s < max {
      minV := minV - s;
      maxV := maxV - s;
    } else {
      if minV - s < min {
        var delta := minV - min;
        maxV := maxV - delta;
        minV := min;
      }
      if maxV - s > max {
        var delta := maxV - max;
        minV := minV - delta;
        maxV := max;
      }
    }
  }

  /** The `onMouseMove` listener of the number filter and the grid date filter over
      a whole drag: the running window `minV..maxV` and pointer position `xStart` are
      the handler's locals; each move's window is written to the state. `changes`
      lists the windows that differed from the one before, as the number filter's
      commit effect sends them. */
  method ShiftDrag(min: real, max: real, dt: real, x0: real, w0: Window, xs: seq<real>)
    returns (w: Window, changes: seq<Model>)
    ensures w == Drag(min, max, w0, Offsets(dt, x0, xs), false)
    ensures changes == DragCommits(min, max, w0, Offsets(dt, x0, xs))
  {
    var xStart := x0;
    var minV, maxV := w0.lo, w0.hi;
    ghost var ss: seq<real> := [];
    changes := [];
    var i := 0;
    while i < |xs|
      invariant 0 <= i <= |xs|
      invariant xStart == LastX(x0, xs[..i])
      invariant ss == Offsets(dt, x0, xs[..i])
      invariant Window(minV, maxV) == Drag(min, max, w0, ss, false)
      invariant changes == DragCommits(min, max, w0, ss)
    {
      var before := Window(minV, maxV);
      var xNew := xStart - xs[i];
      var s := Scaled(dt, xNew);
      DragLoopStep(min, max, dt, x0, w0, xs, i, ss, xStart, s, false);
      xStart := xs[i];
      minV, maxV := MoveWindow(min, max, minV, maxV, s);
      ss := ss + [s];
      changes := changes + Changed(before, Window(minV, maxV));
      i := i + 1;
    }
    assert xs[..|xs|] == xs;
    w := Window(minV, maxV);
  }

  /** The body of the tool-panel date filter's `onMouseMove`, with the upper edge
      stopping the window at `max`. */
  method MoveEdgeWindow(min: real, max: real, minV0: real, maxV0: real, s: real) returns (minV: real, maxV: real)
    ensures Window(minV, maxV) == EdgeStep(min, max, Window(minV0, maxV0), s)
  {
    minV, maxV := minV0, maxV0;
    if minV - s > min && maxV - s < max {
      minV := minV - s;
      maxV := maxV - s;
    } else if minV - s < min && minV > min {
      var delta := minV - min;
      minV := min;
      maxV := maxV - delta;
    } else if maxV - s > max && maxV < max {
      var delta := maxV - max;
      maxV := max;
      minV := minV - delta;
    }
  }

  /** The tool-panel date filter's `onMouseMove` over a whole drag; mouse-up then
      commits the final running window. */
  method EdgeDrag(min: real, max: real, dt: real, x0: real, w0: Window, xs: seq<real>) returns (w: Window)
    ensures w == Drag(min, max, w0, Offsets(dt, x0, xs), true)
  {
    var xStart := x0;
    var minV, maxV := w0.lo, w0.hi;
    ghost var ss: seq<real> := [];
    var i := 0;
    while i < |xs|
      invariant 0 <= i <= |xs|
      invariant xStart == LastX(x0, xs[..i])
      invariant ss == Offsets(dt, x0, xs[..i])
      invariant Window(minV, maxV) == Drag(min, max, w0, ss, true)
    {
      var xNew := xStart - xs[i];
      var s := Scaled(dt, xNew);
      DragLoopStep(min, max, dt, x0, w0, xs, i, ss, xStart, s, true);
      xStart := xs[i];
      minV, maxV := MoveEdgeWindow(min, max, minV, maxV, s);
      ss := ss + [s];
      i := i + 1;
    }
    assert xs[..|xs|] == xs;
    w := Window(minV, maxV);
  }
}
