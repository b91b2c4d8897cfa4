/** Copies of a tile shared out among the threads of a block, a short vector at a time. */
module TileCopy {
  import opened Grid

  /** How the (row, segment) cells of a tile with `segments` vectors per row are dealt to `threads` threads, numbered
      (z * blockDimY + y) * blockDimX + x. */
  datatype Form =
    | Async(threads: nat, segments: nat, perThread: nat)           // cp.async: vectors dealt round robin
    | Packed(threads: nat, segments: nat, rows: nat)               // a warp takes several whole rows at once
    | RowPerWarp(threads: nat, segments: nat, rows: nat)           // a warp takes one row, spare lanes idle
    | Strided(threads: nat, segments: nat, rows: nat)              // any block: strides of warps and of 32 lanes
  {
    /** What the compiler checks before it emits the form. */
    ghost predicate Valid() {
      && threads > 0 && segments > 0
      && (Packed? || RowPerWarp? ==> threads % 32 == 0 && segments <= 32)
      && (Packed? ==> 32 % segments == 0)
      && (Async? ==> (perThread * threads) % segments == 0)
    }

    function Rows(): nat
      requires segments > 0
    {
      if Async? then perThread * threads / segments else rows
    }
  }

  function WarpCount(f: Form): nat { f.threads / 32 }

  /** Warps and part of one. */
  function WarpStride(f: Form): nat { CeilDiv(f.threads, 32) }

  function RowsPerWarp(f: Form): nat
    requires f.segments > 0
  {
    32 / f.segments
  }

  /** The two loops a thread runs; only the strided form has a second. */
  function Outer(f: Form, t: nat): nat
    requires f.Valid()
  {
    match f
    case Async(_, _, perThread) => perThread
    case Packed(_, _, rows) =>
      DividedWarps(f);
      CeilDiv(rows, WarpCount(f) * RowsPerWarp(f))
    case RowPerWarp(_, segments, rows) =>
      DividedWarps(f);
      if t % 32 < segments then CeilDiv(rows, WarpCount(f)) else 0
    case Strided(_, _, rows) =>
      DividedWarps(f);
      Trip(t / 32, rows, WarpStride(f))
  }

  function Inner(f: Form, t: nat): nat {
    if f.Strided? then Trip(t % 32, f.segments, 32) else 1
  }

  lemma PositiveFactor(a: nat, b: nat)
    requires a * b > 0
    ensures a > 0
  {
  }

  lemma DividedWarps(f: Form)
    requires f.Valid()
    ensures f.threads % 32 == 0 ==> WarpCount(f) > 0 && WarpCount(f) * 32 == f.threads && WarpStride(f) == WarpCount(f)
    ensures WarpStride(f) > 0 && f.threads <= WarpStride(f) * 32 < f.threads + 32
    ensures f.Packed? ==> RowsPerWarp(f) > 0 && RowsPerWarp(f) * f.segments == 32 && WarpCount(f) * RowsPerWarp(f) > 0
  {
    DivMod(f.threads, 32);
    if f.Packed? {
      DivMod(32, f.segments);
      PositiveFactor(RowsPerWarp(f), f.segments);
      MulMonotone(1, WarpCount(f), RowsPerWarp(f));
    }
  }

  function Quotient(x: nat, w: nat): nat
    requires w > 0
  {
    DivMod(x, w);
    x / w
  }

  function Remainder(x: nat, w: nat): nat
    requires w > 0
  {
    DivMod(x, w);
    x % w
  }

  /** The cell thread t moves in its i-th outer and j-th inner iteration; a guard may skip it. */
  function Cell(f: Form, t: nat, i: nat, j: nat): (nat, nat)
    requires f.Valid()
  {
    match f
    case Async(threads, segments, _) => (Quotient(Flat(i, t, threads), segments), Remainder(Flat(i, t, threads), segments))
    case Packed(_, segments, _) =>
      (Flat(Flat(i, t / 32, WarpCount(f)), Quotient(t % 32, segments), RowsPerWarp(f)), Remainder(t % 32, segments))
    case RowPerWarp(_, _, _) => (Flat(i, t / 32, WarpCount(f)), t % 32)
    case Strided(_, _, _) => (Flat(i, t / 32, WarpStride(f)), Flat(j, t % 32, 32))
  }

  ghost predicate Moves(f: Form, t: nat, i: nat, j: nat, row: nat, segment: nat)
    requires f.Valid()
  {
    t < f.threads && i < Outer(f, t) && j < Inner(f, t) && Cell(f, t, i, j) == (row, segment) && row < f.Rows()
  }

  /** The thread and iterations that move a cell. */
  function Slot(f: Form, row: nat, segment: nat): (nat, nat, nat)
    requires f.Valid()
  {
    DividedWarps(f);
    match f
    case Async(threads, segments, _) =>
      (Remainder(Flat(row, segment, segments), threads), Quotient(Flat(row, segment, segments), threads), 0)
    case Packed(_, segments, _) =>
      var unit := Quotient(row, RowsPerWarp(f));
      var lane := Flat(Remainder(row, RowsPerWarp(f)), segment, segments);
      (Flat(Remainder(unit, WarpCount(f)), lane, 32), Quotient(unit, WarpCount(f)), 0)
    case RowPerWarp(_, _, _) => (Flat(Remainder(row, WarpCount(f)), segment, 32), Quotient(row, WarpCount(f)), 0)
    case Strided(_, _, _) =>
      (Flat(Remainder(row, WarpStride(f)), segment % 32, 32), Quotient(row, WarpStride(f)), segment / 32)
  }

  lemma AsyncOnce(f: Form, row: nat, segment: nat, t: nat, i: nat, j: nat)
    requires f.Valid() && f.Async? && row < f.Rows() && segment < f.segments
    ensures Moves(f, t, i, j, row, segment) <==> (t, i, j) == Slot(f, row, segment)
  {
    var x := Flat(row, segment, f.segments);
    DivMod(f.perThread * f.threads, f.segments);
    FlatBound(row, segment, f.segments, f.Rows());
    FlatSplits(row, segment, f.segments);
    DivMod(x, f.threads);
    FlatUnsplit(x, f.threads, f.perThread);
    if Moves(f, t, i, j, row, segment) {
      DivMod(Flat(i, t, f.threads), f.segments);
      DivModUnique(x, f.threads, i, t);
    }
  }

  lemma RowPerWarpOnce(f: Form, row: nat, segment: nat, t: nat, i: nat, j: nat)
    requires f.Valid() && f.RowPerWarp? && row < f.rows && segment < f.segments
    ensures Moves(f, t, i, j, row, segment) <==> (t, i, j) == Slot(f, row, segment)
  {
    DividedWarps(f);
    var w := WarpCount(f);
    DivMod(row, w);
    FlatSplits(row % w, segment, 32);
    FlatBound(row % w, segment, 32, w);
    CeilDivBounds(f.rows, w, row / w);
    if Moves(f, t, i, j, row, segment) {
      DivMod(t, 32);
      FlatUnsplit(t, 32, w);
      DivModUnique(row, w, i, t / 32);
    }
  }

  lemma PackedOnce(f: Form, row: nat, segment: nat, t: nat, i: nat, j: nat)
    requires f.Valid() && f.Packed? && row < f.rows && segment < f.segments
    ensures Moves(f, t, i, j, row, segment) <==> (t, i, j) == Slot(f, row, segment)
  {
    PackedSlot(f, row, segment);
    if Moves(f, t, i, j, row, segment) {
      PackedOnly(f, row, segment, t, i, j);
    }
  }

  lemma PackedSlot(f: Form, row: nat, segment: nat)
    requires f.Valid() && f.Packed? && row < f.rows && segment < f.segments
    ensures var (t, i, j) := Slot(f, row, segment); Moves(f, t, i, j, row, segment)
  {
    DividedWarps(f);
    var w, r := WarpCount(f), RowsPerWarp(f);
    var unit := Quotient(row, r);
    var lane := Flat(Remainder(row, r), segment, f.segments);
    PackedRow(f, row);
    DivMod(row, r);
    DivMod(unit, w);
    FlatBound(Remainder(row, r), segment, f.segments, r);
    FlatSplits(Remainder(row, r), segment, f.segments);
    FlatSplits(Remainder(unit, w), lane, 32);
    FlatBound(Remainder(unit, w), lane, 32, w);
  }

  lemma PackedOnly(f: Form, row: nat, segment: nat, t: nat, i: nat, j: nat)
    requires f.Valid() && f.Packed? && row < f.rows && segment < f.segments && Moves(f, t, i, j, row, segment)
    ensures (t, i, j) == Slot(f, row, segment)
  {
    DividedWarps(f);
    var w, r := WarpCount(f), RowsPerWarp(f);
    DivMod(t, 32);
    FlatUnsplit(t, 32, w);
    FlatUnsplit(t % 32, f.segments, r);
    DivModUnique(row, r, Flat(i, t / 32, w), t % 32 / f.segments);
    DivModUnique(Quotient(row, r), w, i, t / 32);
  }

  lemma MulAssociates(a: nat, b: nat, c: nat)
    ensures (a * b) * c == a * (b * c)
  {
  }

  lemma PackedRow(f: Form, row: nat)
    requires f.Valid() && f.Packed? && row < f.rows
    ensures WarpCount(f) > 0 && RowsPerWarp(f) > 0 && WarpCount(f) * RowsPerWarp(f) > 0
    ensures row / RowsPerWarp(f) / WarpCount(f) < CeilDiv(f.rows, WarpCount(f) * RowsPerWarp(f))
  {
    DividedWarps(f);
    QuotientsBelow(row, f.rows, WarpCount(f), RowsPerWarp(f));
  }

  lemma QuotientsBelow(x: nat, rows: nat, w: nat, r: nat)
    requires w > 0 && r > 0 && w * r > 0 && x < rows
    ensures x / r / w < CeilDiv(rows, w * r)
  {
    DivMod(x, r);
    DivMod(x / r, w);
    var q := x / r / w;
    MulMonotone(q * w, x / r, r);
    MulAssociates(q, w, r);
    CeilDivBounds(rows, w * r, q);
  }

  lemma LastIterationFits(rows: nat, each: nat, i: nat)
    requires each > 0 && rows % each == 0 && i < CeilDiv(rows, each)
    ensures (i + 1) * each <= rows
  {
    CeilDivBounds(rows, each, i);
    DivMod(rows, each);
    if i >= rows / each {
      MulMonotone(rows / each, i, each);
    } else {
      MulMonotone(i + 1, rows / each, each);
    }
  }

  /** When the rows divide evenly the guard is left out: no iteration goes past the last row. */
  lemma PackedNeedsNoGuard(f: Form, t: nat, i: nat)
    requires f.Valid() && f.Packed? && t < f.threads && i < Outer(f, t)
    requires WarpCount(f) * RowsPerWarp(f) > 0 && f.rows % (WarpCount(f) * RowsPerWarp(f)) == 0
    ensures Cell(f, t, i, 0).0 < f.rows
  {
    DividedWarps(f);
    var w, r := WarpCount(f), RowsPerWarp(f);
    LastIterationFits(f.rows, w * r, i);
    FlatUnsplit(t, 32, w);
    FlatUnsplit(t % 32, f.segments, r);
    FlatBound(i, t / 32, w, i + 1);
    FlatBound(Flat(i, t / 32, w), t % 32 / f.segments, r, (i + 1) * w);
    MulAssociates(i + 1, w, r);
  }

  lemma RowPerWarpNeedsNoGuard(f: Form, t: nat, i: nat)
    requires f.Valid() && f.RowPerWarp? && t < f.threads && i < Outer(f, t)
    requires WarpCount(f) > 0 && f.rows % WarpCount(f) == 0
    ensures Cell(f, t, i, 0).0 < f.rows
  {
    DividedWarps(f);
    LastIterationFits(f.rows, WarpCount(f), i);
    FlatUnsplit(t, 32, WarpCount(f));
    FlatBound(i, t / 32, WarpCount(f), i + 1);
  }

  lemma WarpInBlock(t: nat, threads: nat, w: nat)
    requires t < threads <= w * 32
    ensures t / 32 < w
  {
    DivMod(t, 32);
  }

  /** In the strided form a cell has one slot; it is moved exactly when the slot's thread is in the block. */
  lemma StridedOnce(f: Form, row: nat, segment: nat, t: nat, i: nat, j: nat)
    requires f.Valid() && f.Strided? && row < f.Rows() && segment < f.segments
    ensures Moves(f, t, i, j, row, segment) <==> (t, i, j) == Slot(f, row, segment) && t < f.threads
  {
    StridedSlot(f, row, segment);
    if Moves(f, t, i, j, row, segment) {
      StridedOnly(f, row, segment, t, i, j);
    }
  }

  lemma StridedSlot(f: Form, row: nat, segment: nat)
    requires f.Valid() && f.Strided? && row < f.rows && segment < f.segments
    ensures var (t, i, j) := Slot(f, row, segment); t < f.threads ==> Moves(f, t, i, j, row, segment)
  {
    DividedWarps(f);
    var w := WarpStride(f);
    DivMod(row, w);
    DivMod(segment, 32);
    FlatSplits(Remainder(row, w), segment % 32, 32);
    TripIs(Remainder(row, w), f.rows, w, Quotient(row, w));
    TripIs(segment % 32, f.segments, 32, segment / 32);
  }

  lemma StridedOnly(f: Form, row: nat, segment: nat, t: nat, i: nat, j: nat)
    requires f.Valid() && f.Strided? && row < f.rows && segment < f.segments && Moves(f, t, i, j, row, segment)
    ensures (t, i, j) == Slot(f, row, segment)
  {
    hide Outer, Inner;
    DividedWarps(f);
    DivMod(t, 32);
    WarpInBlock(t, f.threads, WarpStride(f));
    FlatSplits(i, t / 32, WarpStride(f));
    FlatSplits(j, t % 32, 32);
  }

  /** Blocks with a broken last warp copy every cell only if that warp gets no row or no segment it lacks a lane for. */
  predicate StridedComplete(f: Form)
    requires f.Strided?
  {
    f.threads % 32 == 0 || f.rows <= f.threads / 32 || f.segments <= f.threads % 32
  }

  ghost predicate Moved(f: Form, row: nat, segment: nat)
    requires f.Valid()
  {
    exists t, i, j :: Moves(f, t, i, j, row, segment)
  }

  /** Every cell of the tile is moved by some thread exactly when the form is complete. */
  lemma StridedCompleteIff(f: Form)
    requires f.Valid() && f.Strided?
    ensures StridedComplete(f) <==> forall row: nat, segment: nat :: row < f.rows && segment < f.segments ==> Moved(f, row, segment)
  {
    hide Moves, StridedComplete;
    StridedSlotsIff(f);
    forall row: nat, segment: nat | row < f.rows && segment < f.segments
      ensures Moved(f, row, segment) <==> Slot(f, row, segment).0 < f.threads {
      var (t, i, j) := Slot(f, row, segment);
      StridedOnce(f, row, segment, t, i, j);
      if Moved(f, row, segment) {
        var t', i', j' :| Moves(f, t', i', j', row, segment);
        StridedOnce(f, row, segment, t', i', j');
      }
    }
  }

  lemma StridedSlotsIff(f: Form)
    requires f.Valid() && f.Strided?
    ensures StridedComplete(f) <==>
              forall row: nat, segment: nat :: row < f.rows && segment < f.segments ==> Slot(f, row, segment).0 < f.threads
  {
    DividedWarps(f);
    DivMod(f.threads, 32);
    var w := WarpStride(f);
    if StridedComplete(f) {
      forall row: nat, segment: nat | row < f.rows && segment < f.segments ensures Slot(f, row, segment).0 < f.threads {
        DivMod(row, w);
        DivMod(segment, 32);
        if f.threads % 32 == 0 {
          FlatBound(row % w, segment % 32, 32, w);
        } else {
          DivModUnique(f.threads + 31, 32, f.threads / 32 + 1, f.threads % 32 - 1);
          if f.rows <= f.threads / 32 {
            DivModUnique(row, w, 0, row);
            FlatBound(row, segment % 32, 32, f.threads / 32);
          } else {
            DivModUnique(segment, 32, 0, segment);
            LastWarp(row % w, segment, f.threads);
          }
        }
      }
    } else {
      DivModUnique(f.threads + 31, 32, f.threads / 32 + 1, f.threads % 32 - 1);
      var row, segment := f.threads / 32, f.threads % 32;
      DivModUnique(row, w, 0, row);
      DivModUnique(segment, 32, 0, segment);
      assert Slot(f, row, segment).0 == f.threads;
    }
  }

  lemma LastWarp(warp: nat, lane: nat, threads: nat)
    requires warp <= threads / 32 && lane < threads % 32
    ensures Flat(warp, lane, 32) < threads
  {
    DivMod(threads, 32);
    MulMonotone(warp, threads / 32, 32);
  }

  ghost predicate Complete(f: Form)
    requires f.Valid()
  {
    f.Strided? ==> StridedComplete(f)
  }

  /** Every cell of the tile is moved, once, and nothing outside the tile is. */
  lemma MovedExactlyOnce(f: Form, row: nat, segment: nat, t: nat, i: nat, j: nat)
    requires f.Valid() && Complete(f) && row < f.Rows() && segment < f.segments
    ensures Moves(f, t, i, j, row, segment) <==> (t, i, j) == Slot(f, row, segment)
  {
    match f
    case Async(_, _, _) => AsyncOnce(f, row, segment, t, i, j);
    case Packed(_, _, _) => PackedOnce(f, row, segment, t, i, j);
    case RowPerWarp(_, _, _) => RowPerWarpOnce(f, row, segment, t, i, j);
    case Strided(_, _, _) =>
      StridedOnce(f, row, segment, t, i, j);
      StridedSlotsIff(f);
  }

  lemma CellInSegments(f: Form, t: nat, i: nat, j: nat)
    requires f.Valid() && t < f.threads && i < Outer(f, t) && j < Inner(f, t)
    ensures Cell(f, t, i, j).1 < f.segments
  {
    match f
    case Async(_, segments, _) => DivMod(Flat(i, t, f.threads), segments);
    case Packed(_, segments, _) => DivMod(t % 32, segments);
    case RowPerWarp(_, _, _) =>
    case Strided(_, segments, _) => TripIs(t % 32, segments, 32, j);
  }

  // ---- running it ---------------------------------------------------------

  /** Slot x comes before iteration (i, j) of thread t. */
  predicate Before(x: (nat, nat, nat), t: nat, i: nat, j: nat) {
    x.0 < t || (x.0 == t && (x.1 < i || (x.1 == i && x.2 < j)))
  }

  /** Moved so far: exactly the cells whose slot is over. */
  ghost predicate Dealt(f: Form, moved: set<(nat, nat)>, t: nat, i: nat, j: nat)
    requires f.Valid()
  {
    forall row: nat, segment: nat {:trigger Slot(f, row, segment)} :: row < f.Rows() && segment < f.segments ==>
      ((row, segment) in moved <==> Before(Slot(f, row, segment), t, i, j))
  }

  lemma NextSlot(f: Form, moved: set<(nat, nat)>, t: nat, i: nat, j: nat)
    requires f.Valid() && Complete(f) && Dealt(f, moved, t, i, j) && t < f.threads && i < Outer(f, t) && j < Inner(f, t)
    ensures Cell(f, t, i, j).1 < f.segments
    ensures Cell(f, t, i, j).0 < f.Rows() ==> Cell(f, t, i, j) !in moved
    ensures Dealt(f, if Cell(f, t, i, j).0 < f.Rows() then moved + {Cell(f, t, i, j)} else moved, t, i, j + 1)
  {
    CellInSegments(f, t, i, j);
    forall row: nat, segment: nat | row < f.Rows() && segment < f.segments
      ensures Slot(f, row, segment) == (t, i, j) <==> Cell(f, t, i, j) == (row, segment) {
      MovedExactlyOnce(f, row, segment, t, i, j);
    }
  }

  lemma EndOfInner(f: Form, moved: set<(nat, nat)>, t: nat, i: nat)
    requires f.Valid() && Complete(f) && Dealt(f, moved, t, i, Inner(f, t))
    ensures Dealt(f, moved, t, i + 1, 0)
  {
    SlotsInRange(f);
  }

  lemma EndOfOuter(f: Form, moved: set<(nat, nat)>, t: nat)
    requires f.Valid() && Complete(f) && Dealt(f, moved, t, Outer(f, t), 0)
    ensures Dealt(f, moved, t + 1, 0, 0)
  {
    SlotsInRange(f);
  }

  lemma SlotsInRange(f: Form)
    requires f.Valid() && Complete(f)
    ensures forall row: nat, segment: nat {:trigger Slot(f, row, segment)} :: row < f.Rows() && segment < f.segments ==>
              var (t, i, j) := Slot(f, row, segment);
              t < f.threads && i < Outer(f, t) && j < Inner(f, t)
  {
    forall row: nat, segment: nat | row < f.Rows() && segment < f.segments
      ensures var (t, i, j) := Slot(f, row, segment); t < f.threads && i < Outer(f, t) && j < Inner(f, t) {
      var (t, i, j) := Slot(f, row, segment);
      MovedExactlyOnce(f, row, segment, t, i, j);
    }
  }

  /** The vector at (row, segment) is in dst. */
  ghost predicate Copied(src: array2<int>, dst: array2<int>, width: nat, row: nat, segment: nat)
    requires row < src.Length0 == dst.Length0 && src.Length1 == dst.Length1
    reads src, dst
  {
    forall e: nat :: e < width && Flat(segment, e, width) < src.Length1 ==>
      dst[row, Flat(segment, e, width)] == src[row, Flat(segment, e, width)]
  }

  method MoveVector(src: array2<int>, dst: array2<int>, width: nat, segments: nat, row: nat, segment: nat)
    requires src != dst && row < src.Length0 == dst.Length0 && src.Length1 == dst.Length1 == segments * width
    requires segment < segments
    modifies dst
    ensures Copied(src, dst, width, row, segment)
    ensures forall r, c :: 0 <= r < dst.Length0 && 0 <= c < dst.Length1 ==>
              dst[r, c] == old(dst[r, c]) || dst[r, c] == src[r, c]
  {
    for e := 0 to width
      invariant forall d: nat :: d < e && Flat(segment, d, width) < src.Length1 ==>
                  dst[row, Flat(segment, d, width)] == src[row, Flat(segment, d, width)]
      invariant forall r, c :: 0 <= r < dst.Length0 && 0 <= c < dst.Length1 ==>
                  dst[r, c] == old(dst[r, c]) || dst[r, c] == src[r, c]
    {
      FlatBound(segment, e, width, segments);
      dst[row, Flat(segment, e, width)] := src[row, Flat(segment, e, width)];
    }
  }

  /** All threads of the block run their loops: the destination is what two nested loops over rows and columns
      would have copied, and no cell is moved twice. */
  method CopyTile(f: Form, width: nat, src: array2<int>, dst: array2<int>)
    requires f.Valid() && Complete(f) && width > 0 && src != dst
    requires src.Length0 == dst.Length0 == f.Rows() && src.Length1 == dst.Length1 == f.segments * width
    modifies dst
    ensures forall row, col :: 0 <= row < dst.Length0 && 0 <= col < dst.Length1 ==> dst[row, col] == src[row, col]
  {
    ghost var moved: set<(nat, nat)> := {};
    for t := 0 to f.threads
      invariant Dealt(f, moved, t, 0, 0)
      invariant forall c :: c in moved && c.0 < f.Rows() ==> Copied(src, dst, width, c.0, c.1)
    {
      for i := 0 to Outer(f, t)
        invariant Dealt(f, moved, t, i, 0)
        invariant forall c :: c in moved && c.0 < f.Rows() ==> Copied(src, dst, width, c.0, c.1)
      {
        for j := 0 to Inner(f, t)
          invariant Dealt(f, moved, t, i, j)
          invariant forall c :: c in moved && c.0 < f.Rows() ==> Copied(src, dst, width, c.0, c.1)
        {
          var (row, segment) := Cell(f, t, i, j);
          NextSlot(f, moved, t, i, j);
          if row < f.Rows() {
            assert (row, segment) !in moved;
            MoveVector(src, dst, width, f.segments, row, segment);
            moved := moved + {(row, segment)};
          }
        }
        EndOfInner(f, moved, t, i);
      }
      EndOfOuter(f, moved, t);
    }
    SlotsInRange(f);
    forall row: nat, col: nat | row < dst.Length0 && col < dst.Length1 ensures dst[row, col] == src[row, col] {
      FlatUnsplit(col, width, f.segments);
      assert Before(Slot(f, row, col / width), f.threads, 0, 0);
      assert Copied(src, dst, width, row, col / width);
    }
  }

  // ---- which form is emitted ----------------------------------------------

  datatype Choice = KeepLoops | Use(form: Form, width: nat)

  /** cp.async: vectors of eight halves if they divide evenly among the threads, else of four, else no rewrite. */
  method ChooseAsync(rows: nat, cols: nat, blockX: nat, blockY: nat) returns (c: Choice)
    requires blockX * blockY > 0 && rows > 0 && cols > 0
    ensures c.Use? ==>
              && c.form.Valid() && Complete(c.form) && c.form.Async? && c.form.Rows() == rows
              && c.form.segments * c.width == cols && (c.width == 8 || c.width == 4)
              && c.form.threads == blockX * blockY
              && (c.width == 8 <==> cols % 8 == 0 && (rows * (cols / 8)) % (blockX * blockY) == 0)
    ensures c.KeepLoops? <==> cols % 4 != 0 || (rows * (cols / 4)) % (blockX * blockY) != 0
  {
    var threads := blockX * blockY;
    var width := 8;
    if cols % width != 0 || (rows * (cols / width)) % threads != 0 {
      width := 4;
    }
    if cols % 8 == 0 {
      HalfVectors(rows, cols, threads);
    }
    if cols % width != 0 {
      return KeepLoops;
    }
    var segments := cols / width;
    var total := rows * segments;
    if total % threads != 0 {
      return KeepLoops;
    }
    DivMod(total, threads);
    DivModUnique(total, segments, rows, 0);
    return Use(Async(threads, segments, total / threads), width);
  }

  lemma HalfVectors(rows: nat, cols: nat, threads: nat)
    requires threads > 0 && cols % 8 == 0
    ensures (rows * (cols / 8)) % threads == 0 ==> (rows * (cols / 4)) % threads == 0
  {
    var x := rows * (cols / 8);
    assert cols / 4 == 2 * (cols / 8);
    assert rows * (cols / 4) == 2 * x;
    if x % threads == 0 {
      DivMod(x, threads);
      DivModUnique(2 * x, threads, 2 * (x / threads), 0);
    }
  }

  /** Distributed vector copies: the block's shape, when known, picks the form. Vectors are eight halves. */
  method ChooseDistributed(rows: nat, cols: nat, blockX: nat, blockY: nat, blockZ: nat, known: bool) returns (f: Form)
    requires rows > 0 && cols > 0 && cols % 8 == 0 && blockX > 0 && blockY > 0 && blockZ > 0
    ensures f.Valid() && f.segments * 8 == cols && f.Rows() == rows && f.threads == blockX * blockY * blockZ
    ensures f.Strided? <==> !(known && blockX == 32 && cols / 8 <= 32)
    ensures f.Packed? <==> known && blockX == 32 && cols / 8 <= 32 && 32 % (cols / 8) == 0
    ensures known && blockX == 32 ==> Complete(f)
  {
    var segments := cols / 8;
    var threads := blockX * blockY * blockZ;
    MulMonotone(1, blockX, blockY);
    MulMonotone(1, blockX * blockY, blockZ);
    MulAssociates(blockX, blockY, blockZ);
    if blockX == 32 {
      DivModUnique(threads, 32, blockY * blockZ, 0);
    }
    if known && blockX == 32 && segments <= 32 {
      f := if 32 % segments == 0 then Packed(threads, segments, rows) else RowPerWarp(threads, segments, rows);
    } else {
      f := Strided(threads, segments, rows);
    }
  }

  // ---- threads of the block -----------------------------------------------

  /** A block's extents, and the number the copy loops give a thread: x fastest, then y, then z. */
  datatype Block = Block(x: nat, y: nat, z: nat)
  {
    function Threads(): nat { x * y * z }

    predicate Has(tx: nat, ty: nat, tz: nat) { tx < x && ty < y && tz < z }

    function Number(tx: nat, ty: nat, tz: nat): nat { Flat(Flat(tz, ty, y), tx, x) }
  }

  /** Numbering is one to one onto the thread numbers of the block; 32 threads along x make a warp of each row. */
  lemma Numbered(b: Block, tx: nat, ty: nat, tz: nat)
    requires b.Has(tx, ty, tz)
    ensures var t := b.Number(tx, ty, tz);
            t < b.Threads() && t % b.x == tx && t / b.x % b.y == ty && t / b.x / b.y == tz
    ensures b.x == 32 ==> b.Number(tx, ty, tz) / 32 == ty + tz * b.y && b.Number(tx, ty, tz) % 32 == tx
  {
    FlatSplits(Flat(tz, ty, b.y), tx, b.x);
    FlatSplits(tz, ty, b.y);
    FlatBound(tz, ty, b.y, b.z);
    FlatBound(Flat(tz, ty, b.y), tx, b.x, b.z * b.y);
    Extents(b);
  }

  lemma Extents(b: Block)
    ensures (b.z * b.y) * b.x == b.Threads()
  {
  }

  lemma ThreadOf(b: Block, t: nat) returns (tx: nat, ty: nat, tz: nat)
    requires t < b.Threads()
    ensures b.Has(tx, ty, tz) && b.Number(tx, ty, tz) == t
  {
    Extents(b);
    PositiveFactor(b.x, b.z * b.y);
    FlatUnsplit(t, b.x, b.z * b.y);
    PositiveFactor(b.y, b.z);
    FlatUnsplit(t / b.x, b.y, b.z);
    tx, ty, tz := t % b.x, t / b.x % b.y, t / b.x / b.y;
  }

  ghost predicate MovedBy(f: Form, b: Block, tx: nat, ty: nat, tz: nat, i: nat, j: nat, row: nat, segment: nat)
    requires f.Valid()
  {
    b.Has(tx, ty, tz) && Moves(f, b.Number(tx, ty, tz), i, j, row, segment)
  }

  /** In every form a cell of the tile is moved by one thread (x, y, z) of the block, in one iteration. */
  lemma MovedByOneThread(f: Form, b: Block, row: nat, segment: nat)
    returns (tx: nat, ty: nat, tz: nat, i: nat, j: nat)
    requires f.Valid() && Complete(f) && f.threads == b.Threads() && row < f.Rows() && segment < f.segments
    ensures MovedBy(f, b, tx, ty, tz, i, j, row, segment)
    ensures forall ux, uy, uz, k, l :: MovedBy(f, b, ux, uy, uz, k, l, row, segment) ==>
              ux == tx && uy == ty && uz == tz && k == i && l == j
  {
    hide Moves, Complete;
    var (t, i', j') := Slot(f, row, segment);
    MovedExactlyOnce(f, row, segment, t, i', j');
    i, j := i', j';
    MovingIsInBlock(f, t, i, j, row, segment);
    tx, ty, tz := ThreadOf(b, t);
    Numbered(b, tx, ty, tz);
    forall ux, uy, uz, k, l | MovedBy(f, b, ux, uy, uz, k, l, row, segment)
      ensures ux == tx && uy == ty && uz == tz && k == i && l == j {
      MovedExactlyOnce(f, row, segment, b.Number(ux, uy, uz), k, l);
      Numbered(b, ux, uy, uz);
    }
  }

  lemma MovingIsInBlock(f: Form, t: nat, i: nat, j: nat, row: nat, segment: nat)
    requires f.Valid() && Moves(f, t, i, j, row, segment)
    ensures t < f.threads
  {
  }
}
