/** Straight runs of single-pixel operations, over any drawing state. */
module PixelRuns {
  /** n steps of plot, the first at (x, y), each the next (dx, dy) further. */
  function Run<S>(plot: (S, int, int) -> S, s: S, x: int, y: int, dx: int, dy: int, n: int): S
    decreases n
  {
    if n <= 0 then s else Run(plot, plot(s, x, y), x + dx, y + dy, dx, dy, n - 1)
  }

  /** Plotting at (x, y) changes nothing, as off the screen. */
  ghost predicate Idle<S(!new)>(plot: (S, int, int) -> S, x: int, y: int) {
    forall s :: plot(s, x, y) == s
  }

  ghost predicate Commutes<S(!new)>(plot: (S, int, int) -> S) {
    forall s, x1, y1, x2, y2 :: plot(plot(s, x1, y1), x2, y2) == plot(plot(s, x2, y2), x1, y1)
  }

  lemma {:induction false} RunAppend<S>(plot: (S, int, int) -> S, s: S, x: int, y: int, dx: int, dy: int, m: nat,
                                        n: nat)
    ensures Run(plot, s, x, y, dx, dy, m + n)
         == Run(plot, Run(plot, s, x, y, dx, dy, m), x + m * dx, y + m * dy, dx, dy, n)
    decreases m
  {
    if m > 0 {
      RunAppend(plot, plot(s, x, y), x + dx, y + dy, dx, dy, m - 1, n);
      assert x + dx + (m - 1) * dx == x + m * dx;
      assert y + dy + (m - 1) * dy == y + m * dy;
    }
  }

  lemma {:induction false} IdleRun<S(!new)>(plot: (S, int, int) -> S, s: S, x: int, y: int, dx: int, dy: int, n: nat)
    requires forall i :: 0 <= i < n ==> Idle(plot, x + i * dx, y + i * dy)
    ensures Run(plot, s, x, y, dx, dy, n) == s
    decreases n
  {
    if n > 0 {
      assert Idle(plot, x + 0 * dx, y + 0 * dy);
      assert plot(s, x, y) == s;
      forall i | 0 <= i < n - 1
        ensures Idle(plot, x + dx + i * dx, y + dy + i * dy)
      {
        assert Idle(plot, x + (i + 1) * dx, y + (i + 1) * dy);
        assert (i + 1) * dx == dx + i * dx && (i + 1) * dy == dy + i * dy;
      }
      IdleRun(plot, s, x + dx, y + dy, dx, dy, n - 1);
    }
  }

  /** Leading steps that change nothing can be skipped. */
  lemma SkipIdle<S(!new)>(plot: (S, int, int) -> S, s: S, x: int, y: int, dx: int, dy: int, k: nat, n: nat)
    requires k <= n
    requires forall i :: 0 <= i < k ==> Idle(plot, x + i * dx, y + i * dy)
    ensures Run(plot, s, x, y, dx, dy, n) == Run(plot, s, x + k * dx, y + k * dy, dx, dy, n - k)
  {
    IdleRun(plot, s, x, y, dx, dy, k);
    RunAppend(plot, s, x, y, dx, dy, k, n - k);
  }

  /** Trailing steps that change nothing can be dropped. */
  lemma DropIdle<S(!new)>(plot: (S, int, int) -> S, s: S, x: int, y: int, dx: int, dy: int, k: nat, n: nat)
    requires k <= n
    requires forall i :: 0 <= i < n - k ==> Idle(plot, x + k * dx + i * dx, y + k * dy + i * dy)
    ensures Run(plot, s, x, y, dx, dy, n) == Run(plot, s, x, y, dx, dy, k)
  {
    IdleRun(plot, Run(plot, s, x, y, dx, dy, k), x + k * dx, y + k * dy, dx, dy, n - k);
    RunAppend(plot, s, x, y, dx, dy, k, n - k);
  }

  /** A run cut to the positions lo..hi-1 outside of which plotting does nothing. */
  lemma ClipRow<S(!new)>(plot: (S, int, int) -> S, s: S, x: int, y: int, n: nat, lo: int, hi: int)
    requires x <= lo && hi <= x + n
    requires forall u :: x <= u < lo || hi <= u < x + n ==> Idle(plot, u, y)
    ensures Run(plot, s, x, y, 1, 0, n) == Run(plot, s, lo, y, 1, 0, hi - lo)
  {
    if lo < hi {
      SkipIdle(plot, s, x, y, 1, 0, lo - x, n);
      DropIdle(plot, s, lo, y, 1, 0, hi - lo, x + n - lo);
    } else {
      IdleRun(plot, s, x, y, 1, 0, n);
    }
  }

  lemma ClipColumn<S(!new)>(plot: (S, int, int) -> S, s: S, x: int, y: int, n: nat, lo: int, hi: int)
    requires y <= lo && hi <= y + n
    requires forall v :: y <= v < lo || hi <= v < y + n ==> Idle(plot, x, v)
    ensures Run(plot, s, x, y, 0, 1, n) == Run(plot, s, x, lo, 0, 1, hi - lo)
  {
    if lo < hi {
      SkipIdle(plot, s, x, y, 0, 1, lo - y, n);
      DropIdle(plot, s, x, lo, 0, 1, hi - lo, y + n - lo);
    } else {
      IdleRun(plot, s, x, y, 0, 1, n);
    }
  }

  lemma {:induction false} PlotPastRun<S(!new)>(plot: (S, int, int) -> S, s: S, u: int, v: int, x: int, y: int,
                                                dx: int, dy: int, n: nat)
    requires Commutes(plot)
    ensures Run(plot, plot(s, u, v), x, y, dx, dy, n) == plot(Run(plot, s, x, y, dx, dy, n), u, v)
    decreases n
  {
    if n > 0 {
      assert plot(plot(s, u, v), x, y) == plot(plot(s, x, y), u, v);
      PlotPastRun(plot, plot(s, x, y), u, v, x + dx, y + dy, dx, dy, n - 1);
    }
  }

  /** A run drawn backwards ends in the same state. */
  lemma {:induction false} RunBackwards<S(!new)>(plot: (S, int, int) -> S, s: S, x: int, y: int, dx: int, dy: int,
                                                 n: nat)
    requires Commutes(plot)
    ensures Run(plot, s, x, y, dx, dy, n) == Run(plot, s, x + (n - 1) * dx, y + (n - 1) * dy, -dx, -dy, n)
    decreases n
  {
    if n > 0 {
      var lx, ly := x + (n - 1) * dx, y + (n - 1) * dy;
      RunBackwards(plot, s, x + dx, y + dy, dx, dy, n - 1);
      assert x + dx + (n - 2) * dx == lx && y + dy + (n - 2) * dy == ly;
      PlotPastRun(plot, s, x, y, x + dx, y + dy, dx, dy, n - 1);
      RunAppend(plot, s, lx, ly, -dx, -dy, n - 1, 1);
      assert lx + (n - 1) * -dx == x && ly + (n - 1) * -dy == y;
    }
  }

  lemma RowBackwards<S(!new)>(plot: (S, int, int) -> S, s: S, x: int, y: int, n: nat)
    requires Commutes(plot)
    ensures Run(plot, s, x, y, -1, 0, n) == Run(plot, s, x - (n - 1), y, 1, 0, n)
  {
    RunBackwards(plot, s, x, y, -1, 0, n);
  }

  lemma ColumnBackwards<S(!new)>(plot: (S, int, int) -> S, s: S, x: int, y: int, n: nat)
    requires Commutes(plot)
    ensures Run(plot, s, x, y, 0, -1, n) == Run(plot, s, x, y - (n - 1), 0, 1, n)
  {
    RunBackwards(plot, s, x, y, 0, -1, n);
  }

  /** A run in one frame is a run in another when the frames' plots agree along it. */
  ghost predicate Follows<S(!new)>(plot: (S, int, int) -> S, x: int, y: int, other: (S, int, int) -> S, u: int, v: int) {
    forall s :: plot(s, x, y) == other(s, u, v)
  }

  lemma {:induction false} MovedRun<S(!new)>(plot: (S, int, int) -> S, x: int, y: int, dx: int, dy: int,
                                             other: (S, int, int) -> S, u: int, v: int, du: int, dv: int, s: S, n: int)
    requires forall i :: 0 <= i < n ==> Follows(plot, x + i * dx, y + i * dy, other, u + i * du, v + i * dv)
    ensures Run(plot, s, x, y, dx, dy, n) == Run(other, s, u, v, du, dv, n)
    decreases n
  {
    if n > 0 {
      assert Follows(plot, x + 0 * dx, y + 0 * dy, other, u + 0 * du, v + 0 * dv);
      assert plot(s, x, y) == other(s, u, v);
      forall i | 0 <= i < n - 1
        ensures Follows(plot, x + dx + i * dx, y + dy + i * dy, other, u + du + i * du, v + dv + i * dv)
      {
        assert Follows(plot, x + (i + 1) * dx, y + (i + 1) * dy, other, u + (i + 1) * du, v + (i + 1) * dv);
        assert (i + 1) * dx == dx + i * dx && (i + 1) * dy == dy + i * dy;
        assert (i + 1) * du == du + i * du && (i + 1) * dv == dv + i * dv;
      }
      MovedRun(plot, x + dx, y + dy, dx, dy, other, u + du, v + dv, du, dv, plot(s, x, y), n - 1);
    }
  }
}
