/** Split-K: choosing the factor, cutting the K loop into slices, storing slices to a workspace and adding them up. */
module SplitK {
  import opened Grid

  // ---- the factor ---------------------------------------------------------

  function CeilDivAtLeastOne(a: int, b: int): int {
    if b <= 0 || a <= 0 then 1 else (a + b - 1) / b
  }

  /** The fewest parts of size b that cover a, and one where there is nothing to cover or to cover it with. */
  lemma CeilDivIsLeast(a: int, b: int, q: nat)
    ensures b > 0 ==> (CeilDivAtLeastOne(a, b) <= q <==> 1 <= q && a <= q * b)
    ensures b <= 0 ==> CeilDivAtLeastOne(a, b) == 1
  {
    if b > 0 {
      MulMonotone(0, q, b);
      if a > 0 {
        DivMod(a + b - 1, b);
        var c := CeilDivAtLeastOne(a, b);
        if c <= q {
          MulMonotone(c, q, b);
        } else {
          MulMonotone(q + 1, c, b);
        }
      }
    }
  }

  /** Halves min(dim, preferred) until it divides dim. */
  method PickTilingFactor(dim: int, preferred: int) returns (tile: int)
    ensures tile >= 1
    ensures preferred <= 0 ==> tile == 1
    ensures preferred > 0 && dim <= 0 ==> tile == preferred
    ensures preferred > 0 && dim > 0 ==> dim % tile == 0 && Halving(Min(dim, preferred), tile)
    ensures preferred > 0 && dim > 0 ==>
              forall t :: tile < t && Halving(Min(dim, preferred), t) ==> dim % t != 0
  {
    if preferred <= 0 {
      return 1;
    }
    if dim <= 0 {
      return preferred;
    }
    tile := Min(dim, preferred);
    HalvingBound(tile);
    while tile > 1 && dim % tile != 0
      invariant tile >= 1 && Halving(Min(dim, preferred), tile)
      invariant forall t :: tile < t && Halving(Min(dim, preferred), t) ==> dim % t != 0
    {
      HalvingNext(Min(dim, preferred), tile);
      tile := tile / 2;
    }
  }

  /** tile is one of start, start / 2, start / 4, ... down to 1. */
  predicate Halving(start: int, tile: int) {
    start >= 1 && (tile == start || (start > 1 && Halving(start / 2, tile)))
  }

  lemma {:induction false} HalvingNext(start: int, tile: int)
    requires tile > 1 && Halving(start, tile)
    ensures Halving(start, tile / 2)
    ensures forall t :: Halving(start, t) && t < tile ==> t <= tile / 2
    decreases start
  {
    if tile == start {
      HalvingBound(start / 2);
    } else {
      HalvingNext(start / 2, tile);
      HalvingBound(start / 2);
    }
  }

  lemma {:induction false} HalvingBound(start: int)
    requires start >= 1
    ensures forall t :: Halving(start, t) ==> 1 <= t <= start
    decreases start
  {
    if start > 1 {
      HalvingBound(start / 2);
    }
  }

  /** At most as many slices as are wanted, leaving three tiles to each if that still splits, else two. */
  function MostSlices(kTiles: int, desired: int): int {
    if Min(desired, kTiles / 3) < 2 then Min(desired, kTiles / 2) else Min(desired, kTiles / 3)
  }

  /** d slices of whole tiles, no more than are wanted, with two tiles or more each, or three where there are six or
      more in all. */
  predicate Slices(d: int, kTiles: int, desired: int) {
    1 <= d <= desired && kTiles % d == 0 && (d > 1 ==> (if kTiles < 6 then 2 else 3) * d <= kTiles)
  }

  lemma MostSlicesBounds(kTiles: int, desired: int)
    requires kTiles >= 4 && desired >= 2
    ensures 1 <= MostSlices(kTiles, desired) <= desired
    ensures forall d :: 2 <= d && kTiles % d == 0 ==> (d <= MostSlices(kTiles, desired) <==> Slices(d, kTiles, desired))
    ensures Slices(1, kTiles, desired)
  {
  }

  lemma LargestSlices(kTiles: int, desired: int, factor: int)
    requires kTiles >= 4 && desired >= 2 && 1 <= factor <= MostSlices(kTiles, desired) && kTiles % factor == 0
    requires forall d :: factor < d <= MostSlices(kTiles, desired) ==> kTiles % d != 0
    ensures Slices(factor, kTiles, desired) && forall d :: Slices(d, kTiles, desired) ==> d <= factor
  {
    MostSlicesBounds(kTiles, desired);
    hide MostSlices;
    forall d | Slices(d, kTiles, desired) ensures d <= factor {
    }
  }

  /** As many slices as fill the multiprocessors that the grid leaves idle, or the most there can be below that. */
  ghost predicate FillsDevice(grid: int, kTiles: int, multiprocessors: int, factor: int) {
    if grid >= multiprocessors || kTiles < 4 then factor == 1
    else
      var desired := CeilDivAtLeastOne(multiprocessors, grid);
      Slices(factor, kTiles, desired) && forall d :: Slices(d, kTiles, desired) ==> d <= factor
  }

  /** The largest number of slices within those wanted. */
  method LargestFactor(kTiles: int, desired: int) returns (factor: int)
    requires kTiles >= 4 && desired >= 2
    ensures Slices(factor, kTiles, desired) && forall d :: Slices(d, kTiles, desired) ==> d <= factor
  {
    MostSlicesBounds(kTiles, desired);
    hide Slices;
    factor := Min(desired, kTiles / 3);
    if factor < 2 {
      factor := Min(desired, kTiles / 2);
    }
    while factor > 1 && kTiles % factor != 0
      invariant 1 <= factor <= MostSlices(kTiles, desired)
      invariant forall d :: factor < d <= MostSlices(kTiles, desired) ==> kTiles % d != 0
    {
      factor := factor - 1;
    }
    LargestSlices(kTiles, desired, factor);
  }

  /** As many blocks again as the grid lacks to fill the multiprocessors, cut down to a divisor of the number
      of K tiles. */
  method ComputeSplitKFactor(m: int, n: int, k: int, blockM: int, blockN: int, kTile: int, multiprocessors: int)
    returns (factor: int)
    requires k >= 0 && kTile > 0
    ensures factor >= 1 && (k / kTile) % factor == 0 && (factor > 1 ==> (k / kTile) / factor >= 2)
    ensures FillsDevice(CeilDivAtLeastOne(m, blockM) * CeilDivAtLeastOne(n, blockN), k / kTile, multiprocessors, factor)
  {
    var gridMn := CeilDivAtLeastOne(m, blockM) * CeilDivAtLeastOne(n, blockN);
    var kTiles := k / kTile;
    if gridMn >= multiprocessors || kTiles < 4 {
      return 1;
    }
    var desired := CeilDivAtLeastOne(multiprocessors, gridMn);
    GridIsPositive(m, n, blockM, blockN);
    CeilDivIsLeast(multiprocessors, gridMn, 1);
    factor := LargestFactor(kTiles, desired);
    if factor >= 2 {
      AtLeastTwoEach(kTiles, factor);
    }
  }

  lemma GridIsPositive(m: int, n: int, blockM: int, blockN: int)
    ensures CeilDivAtLeastOne(m, blockM) * CeilDivAtLeastOne(n, blockN) >= 1
  {
    var a, b := CeilDivAtLeastOne(m, blockM), CeilDivAtLeastOne(n, blockN);
    CeilDivIsLeast(m, blockM, 0);
    CeilDivIsLeast(n, blockN, 0);
    MulMonotone(1, a, b);
  }

  lemma AtLeastTwoEach(tiles: nat, parts: nat)
    requires 2 <= parts <= tiles / 2 && tiles % parts == 0
    ensures tiles / parts >= 2
  {
    DivMod(tiles, parts);
    if tiles / parts <= 1 {
      MulMonotone(tiles / parts, 1, parts);
    }
  }

  datatype MultiWarp = NotEligible | MultiWarp(blockM: int, blockN: int, warps: int, kTile: int, factor: int)

  const MULTIPROCESSORS := 24

  /** The multi-warp part of choosing a mapping: large tiles if they fill the device, else smaller ones. */
  method SelectMultiWarp(m: int, n: int, k: int) returns (c: MultiWarp)
    requires m >= 16 && n >= 8 && k >= 16 && m % 16 == 0 && n % 8 == 0 && k % 16 == 0
    ensures c.MultiWarp? ==>
              && c.blockM > 0 && c.blockN > 0 && m % c.blockM == 0 && n % c.blockN == 0
              && (c.kTile == 16 || c.kTile == 32) && k % c.kTile == 0
              && c.factor >= 1 && (k / c.kTile) % c.factor == 0 && (c.factor > 1 ==> (k / c.kTile) / c.factor >= 2)
    ensures c.MultiWarp? && c.warps == 16 ==> c.factor == 1
    ensures c.NotEligible? <==> !(m >= 64 && n >= 64 && m % 64 == 0 && n % 64 == 0 && (m / 64) * (n / 64) >= 4)
    ensures c.MultiWarp? ==>
              && c.blockM == c.blockN && (if c.blockM == 128 then c.warps == 16 else c.blockM == 64 && c.warps == 4)
              && (c.blockM == 128 <==> m % 128 == 0 && n % 128 == 0 && (m / 128) * (n / 128) >= MULTIPROCESSORS)
              && (c.kTile == 32 <==> k % 32 == 0)
    ensures c.MultiWarp? ==> FillsDevice((m / c.blockM) * (n / c.blockN), k / c.kTile, MULTIPROCESSORS, c.factor)
  {
    hide FillsDevice;
    if m >= 128 && n >= 128 && m % 128 == 0 && n % 128 == 0 && (m / 128) * (n / 128) >= MULTIPROCESSORS {
      LargeTilesAreSmallTiles(m, n);
      c := WithTiles(m, n, k, 128, 16);
      OneSliceWhenFull((m / 128) * (n / 128), k / c.kTile, MULTIPROCESSORS, c.factor);
      return;
    }
    if m >= 64 && n >= 64 && m % 64 == 0 && n % 64 == 0 && (m / 64) * (n / 64) >= 4 {
      c := WithTiles(m, n, k, 64, 4);
      return;
    }
    return NotEligible;
  }

  /** Square block tiles of the given size, the K tile and factor that go with them. */
  method WithTiles(m: int, n: int, k: int, block: int, warps: int) returns (c: MultiWarp)
    requires block > 0 && m >= block && n >= block && m % block == 0 && n % block == 0 && k >= 16 && k % 16 == 0
    ensures c.MultiWarp? && c.blockM == c.blockN == block && c.warps == warps
    ensures (c.kTile == 32 <==> k % 32 == 0) && (c.kTile == 16 || c.kTile == 32) && k % c.kTile == 0
    ensures c.factor >= 1 && (k / c.kTile) % c.factor == 0 && (c.factor > 1 ==> (k / c.kTile) / c.factor >= 2)
    ensures FillsDevice((m / block) * (n / block), k / c.kTile, MULTIPROCESSORS, c.factor)
  {
    hide FillsDevice;
    var kTile := PickTilingFactor(k, 32);
    KTile(k, kTile);
    ExactQuotient(m, block);
    ExactQuotient(n, block);
    var factor := ComputeSplitKFactor(m, n, k, block, block, kTile, MULTIPROCESSORS);
    c := MultiWarp(block, block, warps, kTile, factor);
  }

  lemma ExactQuotient(a: int, b: int)
    requires b > 0 && a >= b && a % b == 0
    ensures CeilDivAtLeastOne(a, b) == a / b
  {
    DivMod(a, b);
    DivModUnique(a + b - 1, b, a / b, b - 1);
  }

  lemma OneSliceWhenFull(grid: int, kTiles: int, multiprocessors: int, factor: int)
    requires grid >= multiprocessors && FillsDevice(grid, kTiles, multiprocessors, factor)
    ensures factor == 1
  {
  }

  lemma KTile(k: int, tile: int)
    requires tile >= 1 && k >= 16 && k % 16 == 0 && k % tile == 0 && Halving(Min(k, 32), tile)
    requires forall t :: tile < t && Halving(Min(k, 32), t) ==> k % t != 0
    ensures tile == 16 || tile == 32
    ensures tile == 32 <==> k % 32 == 0
  {
    assert Halving(32, 16) by { assert Halving(16, 16); }
    if k < 32 {
      assert k == 16;
      assert Halving(16, 16);
    }
    HalvingBound(Min(k, 32));
    HalvingNext(32, 32);
    if k % 32 == 0 {
      assert k >= 32 && Halving(Min(k, 32), 32);
    }
  }

  lemma LargeTilesAreSmallTiles(m: int, n: int)
    requires m >= 128 && n >= 128 && m % 128 == 0 && n % 128 == 0
    ensures m % 64 == 0 && n % 64 == 0 && (m / 64) * (n / 64) >= 4
  {
    AtLeastFour(m / 64, n / 64);
  }

  lemma AtLeastFour(a: nat, b: nat)
    requires a >= 2 && b >= 2
    ensures a * b >= 4
  {
    MulMonotone(2, a, b);
  }

  // ---- cutting the loop ---------------------------------------------------

  /** One product: C is m by n, and K is covered by whole tiles. */
  datatype Product = Product(m: nat, n: nat, k: nat, kTile: nat, a: (int, int) -> real, b: (int, int) -> real)
  {
    ghost predicate Valid() { kTile > 0 && k % kTile == 0 }

    function Term(row: int, col: int, i: int): real { a(row, i) * b(i, col) }

    /** The part of C[row, col] from K indices lo to hi. */
    function Dot(row: int, col: int, lo: int, hi: int): real
      decreases hi - lo
    {
      if hi <= lo then 0.0 else Dot(row, col, lo, hi - 1) + Term(row, col, hi - 1)
    }
  }

  function Chunk(k: nat, factor: nat): nat
    requires factor > 0
  {
    (k + (factor - 1)) / factor
  }

  function SliceStart(k: nat, factor: nat, z: nat): nat
    requires factor > 0
  {
    Min(z * Chunk(k, factor), k)
  }

  function SliceEnd(k: nat, factor: nat, z: nat): nat
    requires factor > 0
  {
    Min((z + 1) * Chunk(k, factor), k)
  }

  /** Whatever the factor, consecutive slices meet, the first starts at 0 and the last ends at K. */
  lemma SlicesCover(k: nat, factor: nat, z: nat)
    requires factor > 0
    ensures SliceStart(k, factor, 0) == 0 && SliceEnd(k, factor, factor - 1) == k
    ensures SliceEnd(k, factor, z) == SliceStart(k, factor, z + 1)
    ensures SliceStart(k, factor, z) <= SliceEnd(k, factor, z)
  {
    var chunk := Chunk(k, factor);
    DivMod(k + (factor - 1), factor);
    assert factor * chunk >= k;
    assert (factor - 1 + 1) * chunk == factor * chunk;
    MulMonotone(z, z + 1, chunk);
  }

  /** With a factor that divides the number of K tiles every slice starts and ends on a tile and all are equally long. */
  lemma SlicesAligned(p: Product, factor: nat, z: nat)
    requires p.Valid() && factor > 0 && (p.k / p.kTile) % factor == 0 && z < factor
    ensures Chunk(p.k, factor) == p.k / p.kTile / factor * p.kTile
    ensures SliceStart(p.k, factor, z) == z * Chunk(p.k, factor)
    ensures SliceEnd(p.k, factor, z) == (z + 1) * Chunk(p.k, factor)
    ensures SliceStart(p.k, factor, z) % p.kTile == 0 && SliceEnd(p.k, factor, z) % p.kTile == 0
  {
    var tiles := p.k / p.kTile;
    var each := tiles / factor;
    DivMod(p.k, p.kTile);
    DivMod(tiles, factor);
    assert p.k == (each * factor) * p.kTile == factor * (each * p.kTile);
    var chunk := each * p.kTile;
    DivModUnique(p.k + (factor - 1), factor, chunk, factor - 1);
    assert chunk * factor == p.k;
    MulMonotone(z, factor, chunk);
    MulMonotone(z + 1, factor, chunk);
    assert z * chunk == (z * each) * p.kTile && (z + 1) * chunk == ((z + 1) * each) * p.kTile;
    DivModUnique(z * chunk, p.kTile, z * each, 0);
    DivModUnique((z + 1) * chunk, p.kTile, (z + 1) * each, 0);
  }

  lemma {:induction false} DotSplits(p: Product, row: int, col: int, lo: int, mid: int, hi: int)
    requires lo <= mid <= hi
    ensures p.Dot(row, col, lo, hi) == p.Dot(row, col, lo, mid) + p.Dot(row, col, mid, hi)
    decreases hi - mid
  {
    if mid < hi {
      DotSplits(p, row, col, lo, mid, hi - 1);
    }
  }

  /** One block's K loop, whole tiles at a time. */
  method AccumulateSlice(p: Product, row: int, col: int, start: nat, end: nat) returns (acc: real)
    requires p.Valid() && start <= end && start % p.kTile == 0 && end % p.kTile == 0
    ensures acc == p.Dot(row, col, start, end)
  {
    acc := 0.0;
    var k := start;
    while k < end
      invariant start <= k <= end && k % p.kTile == 0
      invariant acc == p.Dot(row, col, start, k)
    {
      NextTile(k, end, p.kTile);
      for i := 0 to p.kTile
        invariant acc == p.Dot(row, col, start, k + i)
      {
        acc := acc + p.Term(row, col, k + i);
      }
      k := k + p.kTile;
    }
  }

  lemma NextTile(k: nat, end: nat, tile: nat)
    requires tile > 0 && k < end && k % tile == 0 && end % tile == 0
    ensures (k + tile) % tile == 0 && k + tile <= end
  {
    DivMod(k, tile);
    DivMod(end, tile);
    DivModUnique(k + tile, tile, k / tile + 1, 0);
    if end / tile <= k / tile {
      MulMonotone(end / tile, k / tile, tile);
    } else {
      MulMonotone(k / tile + 1, end / tile, tile);
    }
  }

  // ---- where the slices are stored ----------------------------------------

  /** The memref an epilogue store writes through: subviews over C itself or over a cast with one linear offset.
      rowStride is the cast's row stride; `known` says whether the pass can read it off the type. */
  datatype View =
    | Output
    | Subview(of: View, rowOffset: nat, colOffset: nat)
    | Cast(offset: nat, rowStride: nat, known: bool)

  /** The linear address in C of element [r, c] of a view; C has n columns. */
  function Address(v: View, n: nat, r: nat, c: nat): nat {
    match v
    case Output => r * n + c
    case Subview(of, dr, dc) => Address(of, n, r + dr, c + dc)
    case Cast(offset, stride, _) => offset + r * stride + c
  }

  function Divisor(v: View, n: nat): nat
    requires v.Cast?
  {
    if v.known && v.rowStride > 0 then v.rowStride else n
  }

  /** The indices the pass computes: it walks the subviews, then divides the linear offset. */
  method Resolve(v: View, n: nat, r: nat, c: nat) returns (row: nat, col: nat)
    requires n > 0
    ensures (row, col) == Resolved(v, n, r, c)
  {
    row, col := r, c;
    var current := v;
    while current.Subview?
      invariant Resolved(current, n, row, col) == Resolved(v, n, r, c)
      decreases current
    {
      row, col, current := row + current.rowOffset, col + current.colOffset, current.of;
    }
    if current.Cast? {
      row, col := row + current.offset / Divisor(current, n), col + current.offset % Divisor(current, n);
    }
  }

  function Resolved(v: View, n: nat, r: nat, c: nat): (nat, nat)
    requires n > 0
  {
    match v
    case Output => (r, c)
    case Subview(of, dr, dc) => Resolved(of, n, r + dr, c + dc)
    case Cast(offset, _, _) => (r + offset / Divisor(v, n), c + offset % Divisor(v, n))
  }

  function Root(v: View): (root: View)
    ensures !root.Subview?
  {
    if v.Subview? then Root(v.of) else v
  }

  function RowAtRoot(v: View, r: nat): nat {
    if v.Subview? then RowAtRoot(v.of, r + v.rowOffset) else r
  }

  predicate KeepsAddress(v: View, n: nat, r: nat) {
    var root := Root(v);
    root.Output? || root.rowStride == n
    || (RowAtRoot(v, r) == 0 && (root.known && root.rowStride > 0 ==> root.offset < root.rowStride))
  }

  /** The rewritten indices name the original address, in a workspace slice of n columns, exactly when the view
      is over C itself, or over a cast with C's row stride, or the store is in row 0 of the cast and the offset, if it
      is divided by the cast's stride, is within one row. */
  lemma {:induction false} ResolveKeepsAddressIff(v: View, n: nat, r: nat, c: nat)
    requires n > 0
    ensures var (row, col) := Resolved(v, n, r, c);
            row * n + col == Address(v, n, r, c) <==> KeepsAddress(v, n, r)
    decreases v
  {
    match v
    case Output =>
    case Subview(of, dr, dc) => ResolveKeepsAddressIff(of, n, r + dr, c + dc);
    case Cast(offset, stride, known) =>
      if known && stride > 0 {
        SplitByStride(n, r, c, offset, stride);
      } else {
        SplitByColumns(n, r, c, offset, stride);
      }
  }

  lemma SplitByStride(n: nat, r: nat, c: nat, offset: nat, stride: nat)
    requires stride > 0
    ensures (r + offset / stride) * n + (c + offset % stride) == offset + r * stride + c
       <==> stride == n || (r == 0 && offset < stride)
  {
    DivMod(offset, stride);
    var q := offset / stride;
    Difference(r, q, n, stride);
    ZeroProduct(r + q, n - stride);
    if offset < stride {
      DivModUnique(offset, stride, 0, offset);
    }
  }

  lemma Difference(r: nat, q: nat, n: nat, stride: nat)
    ensures (r + q) * n - (q * stride + r * stride) == (r + q) * (n - stride)
  {
  }

  lemma SplitByColumns(n: nat, r: nat, c: nat, offset: nat, stride: nat)
    requires n > 0
    ensures (r + offset / n) * n + (c + offset % n) == offset + r * stride + c <==> stride == n || r == 0
  {
    DivMod(offset, n);
    assert (r + offset / n) * n == r * n + offset / n * n;
    assert r * n - r * stride == r * (n - stride);
    ZeroProduct(r, n - stride);
  }

  lemma ZeroProduct(a: int, b: int)
    ensures a * b == 0 <==> a == 0 || b == 0
  {
    if a > 0 && b != 0 {
      assert b > 0 ==> a * b > 0;
      assert b < 0 ==> a * b < 0;
    } else if a < 0 && b != 0 {
      assert b > 0 ==> a * b < 0;
      assert b < 0 ==> a * b > 0;
    }
  }

  /** An epilogue store: element [r, c] of a view. */
  datatype Store = Store(view: View, r: nat, c: nat)

  /** The kernel's store for every element of C. */
  datatype Stores = Stores(store: (nat, nat) -> Store)
  {
    function At(i: nat, j: nat): Store { store(i, j) }
  }

  /** The store is to element (i, j) of C, its address survives the rewriting, and the column stays in the row. */
  predicate StaysOn(s: Store, n: nat, i: nat, j: nat)
    requires n > 0
  {
    && Address(s.view, n, s.r, s.c) == i * n + j
    && KeepsAddress(s.view, n, s.r) && Resolved(s.view, n, s.r, s.c).1 < n
  }

  lemma ResolvesToElement(s: Store, n: nat, i: nat, j: nat)
    requires j < n && StaysOn(s, n, i, j)
    ensures Resolved(s.view, n, s.r, s.c) == (i, j)
  {
    var (row, col) := Resolved(s.view, n, s.r, s.c);
    ResolveKeepsAddressIff(s.view, n, s.r, s.c);
    DivModUnique(i * n + j, n, i, j);
    DivModUnique(i * n + j, n, row, col);
  }

  ghost predicate AllStayOn(st: Stores, m: nat, n: nat) {
    forall i: nat, j: nat {:trigger st.At(i, j)} :: i < m && j < n ==> StaysOn(st.At(i, j), n, i, j)
  }

  // ---- the whole transformation -------------------------------------------

  /** What slice z of the workspace holds after the product kernel: with the loop cut, its own part of the sum;
      without, everything in slice 0 and the initial zero elsewhere. */
  function SliceValue(p: Product, factor: nat, cut: bool, row: int, col: int, z: nat): real
    requires factor > 0
  {
    if cut then p.Dot(row, col, SliceStart(p.k, factor, z), SliceEnd(p.k, factor, z))
    else if z == 0 then p.Dot(row, col, 0, p.k)
    else 0.0
  }

  function SumOfSlices(p: Product, factor: nat, cut: bool, row: int, col: int, count: nat): real
    requires factor > 0
  {
    if count == 0 then 0.0
    else SumOfSlices(p, factor, cut, row, col, count - 1) + SliceValue(p, factor, cut, row, col, count - 1)
  }

  lemma {:induction false} SlicesAddUp(p: Product, factor: nat, row: int, col: int, count: nat)
    requires factor > 0 && 0 < count <= factor
    ensures SumOfSlices(p, factor, true, row, col, count) == p.Dot(row, col, 0, SliceEnd(p.k, factor, count - 1))
    ensures SumOfSlices(p, factor, false, row, col, count) == p.Dot(row, col, 0, p.k)
  {
    SlicesCover(p.k, factor, count - 1);
    if count > 1 {
      SlicesAddUp(p, factor, row, col, count - 1);
      SlicesCover(p.k, factor, count - 2);
      DotSplits(p, row, col, 0, SliceStart(p.k, factor, count - 1), SliceEnd(p.k, factor, count - 1));
    }
  }

  /** The reduction over all slices is the unsplit sum, whether or not the loop was cut. */
  lemma ReductionIsUnsplit(p: Product, factor: nat, cut: bool, row: int, col: int)
    requires factor > 0
    ensures SumOfSlices(p, factor, cut, row, col, factor) == p.Dot(row, col, 0, p.k)
  {
    SlicesAddUp(p, factor, row, col, factor);
    SlicesCover(p.k, factor, 0);
  }

  /** The product kernel: one z layer of blocks per slice when the loop is cut, one layer in all otherwise. */
  method ProductKernel(p: Product, st: Stores, factor: nat, cut: bool, workspace: array3<real>)
    requires AllStayOn(st, p.m, p.n)
    requires p.Valid() && factor > 0 && (cut ==> (p.k / p.kTile) % factor == 0)
    requires workspace.Length0 == factor && workspace.Length1 == p.m && workspace.Length2 == p.n
    requires forall z, row, col :: 0 <= z < factor && 0 <= row < p.m && 0 <= col < p.n ==> workspace[z, row, col] == 0.0
    modifies workspace
    ensures forall z, row, col :: 0 <= z < factor && 0 <= row < p.m && 0 <= col < p.n ==>
              workspace[z, row, col] == SliceValue(p, factor, cut, row, col, z)
  {
    var layers := if cut then factor else 1;
    for z := 0 to layers
      invariant forall y, row, col :: 0 <= y < factor && 0 <= row < p.m && 0 <= col < p.n ==>
                  workspace[y, row, col] == if y < z then SliceValue(p, factor, cut, row, col, y) else 0.0
    {
      var start, end := 0, p.k;
      if cut {
        SlicesAligned(p, factor, z);
        SlicesCover(p.k, factor, z);
        start, end := SliceStart(p.k, factor, z), SliceEnd(p.k, factor, z);
      }
      FillLayer(p, st, factor, z, start, end, workspace);
    }
  }

  /** One layer of blocks: every store goes to the workspace at its rewritten row and column. */
  method FillLayer(p: Product, st: Stores, factor: nat, z: nat, start: nat, end: nat, workspace: array3<real>)
    requires AllStayOn(st, p.m, p.n)
    requires p.Valid() && z < factor && start <= end && start % p.kTile == 0 && end % p.kTile == 0
    requires workspace.Length0 == factor && workspace.Length1 == p.m && workspace.Length2 == p.n
    modifies workspace
    ensures forall row, col :: 0 <= row < p.m && 0 <= col < p.n ==>
              workspace[z, row, col] == p.Dot(row, col, start, end)
    ensures forall y, row, col :: 0 <= y < factor && 0 <= row < p.m && 0 <= col < p.n && y != z ==>
              workspace[y, row, col] == old(workspace[y, row, col])
  {
    for i := 0 to p.m
      invariant forall row, col :: 0 <= row < i && 0 <= col < p.n ==>
                  workspace[z, row, col] == p.Dot(row, col, start, end)
      invariant forall y, row, col :: 0 <= y < factor && 0 <= row < p.m && 0 <= col < p.n && y != z ==>
                  workspace[y, row, col] == old(workspace[y, row, col])
    {
      for j := 0 to p.n
        invariant forall row, col :: 0 <= row < i && 0 <= col < p.n ==>
                    workspace[z, row, col] == p.Dot(row, col, start, end)
        invariant forall col :: 0 <= col < j ==> workspace[z, i, col] == p.Dot(i, col, start, end)
        invariant forall y, row, col :: 0 <= y < factor && 0 <= row < p.m && 0 <= col < p.n && y != z ==>
                    workspace[y, row, col] == old(workspace[y, row, col])
      {
        var acc := AccumulateSlice(p, i, j, start, end);
        var s := st.At(i, j);
        var row, col := Resolve(s.view, p.n, s.r, s.c);
        ResolvesToElement(s, p.n, i, j);
        workspace[z, row, col] := acc;
      }
    }
  }

  const REDUCE_THREADS := 256

  /** One thread per element of C adds the element's slices; threads past the end do nothing. */
  method ReductionKernel(p: Product, factor: nat, cut: bool, workspace: array3<real>, c: array2<real>)
    requires factor > 0 && p.n > 0
    requires workspace.Length0 == factor && workspace.Length1 == p.m && workspace.Length2 == p.n
    requires c.Length0 == p.m && c.Length1 == p.n
    requires forall z, row, col :: 0 <= z < factor && 0 <= row < p.m && 0 <= col < p.n ==>
               workspace[z, row, col] == SliceValue(p, factor, cut, row, col, z)
    modifies c
    ensures forall row, col :: 0 <= row < p.m && 0 <= col < p.n ==>
              c[row, col] == SumOfSlices(p, factor, cut, row, col, factor)
  {
    var total := p.m * p.n;
    var grid := (total + REDUCE_THREADS - 1) / REDUCE_THREADS;
    for block := 0 to grid
      invariant forall row, col ::
                  0 <= row < p.m && 0 <= col < p.n && Flat(row, col, p.n) < block * REDUCE_THREADS ==>
                  c[row, col] == SumOfSlices(p, factor, cut, row, col, factor)
    {
      for thread := 0 to REDUCE_THREADS
        invariant forall row, col ::
                    0 <= row < p.m && 0 <= col < p.n && Flat(row, col, p.n) < block * REDUCE_THREADS + thread ==>
                    c[row, col] == SumOfSlices(p, factor, cut, row, col, factor)
      {
        var tid := block * REDUCE_THREADS + thread;
        if tid < total {
          FlatUnsplit(tid, p.n, p.m);
          var row, col := tid / p.n, tid % p.n;
          var acc := 0.0;
          for z := 0 to factor
            invariant acc == SumOfSlices(p, factor, cut, row, col, z)
          {
            acc := acc + workspace[z, row, col];
          }
          c[row, col] := acc;
        }
        forall r, s | 0 <= r < p.m && 0 <= s < p.n && Flat(r, s, p.n) == tid
          ensures c[r, s] == SumOfSlices(p, factor, cut, r, s, factor) {
          FlatSplits(r, s, p.n);
          FlatBound(r, s, p.n, p.m);
        }
      }
    }
    forall row, col | 0 <= row < p.m && 0 <= col < p.n ensures Flat(row, col, p.n) < grid * REDUCE_THREADS {
      FlatBound(row, col, p.n, p.m);
    }
  }

  /** Zeroed workspace, product kernel, reduction kernel: C gets the unsplit product. */
  method SplitKProduct(p: Product, st: Stores, factor: nat, cut: bool, c: array2<real>)
    requires AllStayOn(st, p.m, p.n)
    requires p.Valid() && p.n > 0 && factor > 1 && (cut ==> (p.k / p.kTile) % factor == 0)
    requires c.Length0 == p.m && c.Length1 == p.n
    modifies c
    ensures forall row, col :: 0 <= row < p.m && 0 <= col < p.n ==> c[row, col] == p.Dot(row, col, 0, p.k)
  {
    var workspace := new real[factor, p.m, p.n]((z, row, col) => 0.0);
    ProductKernel(p, st, factor, cut, workspace);
    ReductionKernel(p, factor, cut, workspace, c);
    forall row, col | 0 <= row < p.m && 0 <= col < p.n ensures c[row, col] == p.Dot(row, col, 0, p.k) {
      ReductionIsUnsplit(p, factor, cut, row, col);
    }
  }
}
