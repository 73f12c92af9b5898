/**
 The batch-invariant persistent matmul: a grouped tile swizzle, a strided loop
 of persistent programs, and one accumulation over K blocks per output tile.

 The dot-accumulate of one output element, the bias and the cast are arbitrary
 functions; nothing is assumed about them.
 */
module PersistentMatmul {
  import opened Arith

  // ---- the swizzle ------------------------------------------------------------------

  /** Tiles per dimension and the number of tile rows swizzled together. */
  datatype Tiling = Tiling(rows: nat, cols: nat, group: nat) {
    ghost predicate Valid() { group > 0 }
    function Tiles(): nat { rows * cols }
    function InGroup(): nat { group * cols }
  }

  /** Tile rows in the group that starts at `first`; the last group may be short. */
  function GroupRows(t: Tiling, first: int): int { Min(t.rows - first, t.group) }

  /** Where a tile id starts: its group's first tile row, rows in the group, and first tile id. */
  lemma GroupBounds(t: Tiling, id: nat)
    requires t.Valid() && id < t.Tiles()
    ensures t.InGroup() > 0
    ensures var q := id / t.InGroup();
            && 0 <= q && q * t.group < t.rows && GroupRows(t, q * t.group) > 0
            && q * t.InGroup() <= id < q * t.InGroup() + GroupRows(t, q * t.group) * t.cols
  {
    assert t.cols > 0 && t.rows > 0;
    MulMonotone(1, t.group, t.cols);
    var s := t.InGroup();
    var q := id / s;
    DivBounds(id, s);
    var first := q * t.group;
    assert q * s == first * t.cols;
    if first >= t.rows { MulMonotone(t.rows, first, t.cols); }
    assert (t.rows - first) * t.cols == t.Tiles() - first * t.cols;
  }

  function ComputePid(t: Tiling, id: nat): (int, int)
    requires t.Valid() && id < t.Tiles()
  {
    GroupBounds(t, id);
    var first := id / t.InGroup() * t.group;
    var size := GroupRows(t, first);
    (first + id % size, id % t.InGroup() / size)
  }

  /** The tile id that computes a given tile. */
  function TileOf(t: Tiling, pidM: int, pidN: int): int
    requires t.Valid() && 0 <= pidM < t.rows && 0 <= pidN < t.cols
  {
    var q := pidM / t.group;
    DivBounds(pidM, t.group);
    var first := q * t.group;
    var size := GroupRows(t, first);
    var base := q * t.InGroup();
    base + pidN * size + (pidM - first - base) % size
  }

  lemma ModShift(x: int, k: int, s: int)
    requires s > 0
    ensures (x + k * s) % s == x % s
  {
    DivBounds(x, s);
    assert x + k * s == (x / s + k) * s + x % s;
    DivUnique(x + k * s, s, x / s + k, x % s);
  }

  /** Undoing a rotation by `b` modulo `s`. */
  lemma Unrotate(x: int, b: int, s: int)
    requires s > 0
    ensures ((x + b) % s - b) % s == x % s
  {
    DivBounds(x + b, s);
    var k := (x + b) / s;
    assert (x + b) % s - b == x + (-k) * s;
    ModShift(x, -k, s);
  }

  lemma RotateBack(y: int, b: int, s: int)
    requires 0 <= y < s
    ensures (b + (y - b) % s) % s == y
  {
    DivBounds(y - b, s);
    var k := (y - b) / s;
    assert b + (y - b) % s == y + (-k) * s;
    ModShift(y, -k, s);
    DivUnique(y, s, 0, y);
  }

  /** The swizzle stays inside the grid, and the inverse undoes it. */
  lemma SwizzleThenInverse(t: Tiling, id: nat)
    requires t.Valid() && id < t.Tiles()
    ensures var (m, n) := ComputePid(t, id);
            0 <= m < t.rows && 0 <= n < t.cols && TileOf(t, m, n) == id
  {
    GroupBounds(t, id);
    var s := t.InGroup();
    var q := id / s;
    var first, base := q * t.group, q * s;
    var size := GroupRows(t, first);
    var local := id - base;
    DivBounds(id, s);
    assert id % s == local;
    DivBounds(id, size);
    DivBounds(local, size);
    var n := local / size;
    assert t.cols * size == size * t.cols;
    if n >= t.cols { MulMonotone(t.cols, n, size); }
    if n < 0 { MulStrict(n, 0, size); }
    var m := first + id % size;
    assert ComputePid(t, id) == (m, n);
    DivIs(m, t.group, q);
    assert id % size == (local + base) % size;
    Unrotate(local, base, size);
    assert (m - first - base) % size == local % size;
  }

  /** A place inside a group splits off again. */
  lemma SplitOff(q: int, s: int, local: int)
    requires 0 <= local < s
    ensures (q * s + local) / s == q && (q * s + local) % s == local
  {
    DivUnique(q * s + local, s, q, local);
  }

  /** The rotated row of a group: undone whatever tiles precede it. */
  lemma RotatedRow(y: int, base: int, size: int, n: int)
    requires 0 <= y < size
    ensures (base + n * size + (y - base) % size) % size == y
  {
    var r := (y - base) % size;
    assert base + n * size + r == (base + r) + n * size;
    ModShift(base + r, n, size);
    RotateBack(y, base, size);
  }

  /** The group of a tile row. */
  lemma GroupOfRow(t: Tiling, m: int)
    requires t.Valid() && 0 <= m < t.rows
    ensures var first := m / t.group * t.group; 0 <= m / t.group && 0 <= first && 0 <= m - first < GroupRows(t, first)
  {
    DivBounds(m, t.group);
    if m / t.group < 0 { MulStrict(m / t.group, 0, t.group); }
    MulMonotone(0, m / t.group, t.group);
  }

  /** The inverse hits a tile id in range, and the swizzle maps it back. */
  lemma InverseThenSwizzle(t: Tiling, m: int, n: int)
    requires t.Valid() && 0 <= m < t.rows && 0 <= n < t.cols
    ensures 0 <= TileOf(t, m, n) < t.Tiles()
    ensures ComputePid(t, TileOf(t, m, n)) == (m, n)
  {
    hide ComputePid, TileOf;
    var q, s := m / t.group, t.InGroup();
    var first := q * t.group;
    GroupOfRow(t, m);
    var size := GroupRows(t, first);
    var base := q * s;
    var r := (m - first - base) % size;
    var local := n * size + r;
    GroupStart(t, q, first, base);
    LocalInRange(t, first, size, n, r);
    SplitOff(q, s, local);
    SplitOff(n, size, r);
    RotatedRow(m - first, base, size, n);
    PidParts(t, m, n, q, first, base, size, local);
  }

  lemma GroupStart(t: Tiling, q: nat, first: int, base: int)
    requires first == q * t.group && base == q * t.InGroup()
    ensures base == first * t.cols && 0 <= base
  {
    MulMonotone(0, q, t.InGroup());
  }

  /** Reading both definitions at these parts. */
  lemma PidParts(t: Tiling, m: int, n: int, q: int, first: int, base: int, size: int, local: int)
    requires t.Valid() && 0 <= m < t.rows && 0 <= n < t.cols && 0 <= base && 0 <= local && base + local < t.Tiles()
    requires q == m / t.group && first == q * t.group && size == GroupRows(t, first) > 0 && base == q * t.InGroup()
    requires local == n * size + (m - first - base) % size && local / size == n && t.InGroup() > 0
    requires (base + local) / t.InGroup() == q && (base + local) % t.InGroup() == local && (base + local) % size == m - first
    ensures TileOf(t, m, n) == base + local && ComputePid(t, base + local) == (m, n)
  {
    GroupBounds(t, base + local);
  }

  /** Groups of tile rows one after another; inside a group column by column. */
  lemma SwizzleByGroups(t: Tiling, id: nat, later: nat)
    requires t.Valid() && id < later < t.Tiles()
    ensures var (m, n), (m', n') := ComputePid(t, id), ComputePid(t, later);
            && m / t.group <= m' / t.group
            && (m / t.group == m' / t.group ==> n <= n')
  {
    var s := t.InGroup();
    GroupRowOf(t, id);
    GroupRowOf(t, later);
    GroupBounds(t, id);
    GroupBounds(t, later);
    DivMonotone(id, later, s);
    if id / s == later / s {
      DivBounds(id, s);
      DivBounds(later, s);
      DivMonotone(id % s, later % s, GroupRows(t, id / s * t.group));
    }
  }

  lemma GroupRowOf(t: Tiling, id: nat)
    requires t.Valid() && id < t.Tiles()
    ensures t.InGroup() > 0 && ComputePid(t, id).0 / t.group == id / t.InGroup()
  {
    GroupBounds(t, id);
    var q := id / t.InGroup();
    var size := GroupRows(t, q * t.group);
    DivBounds(id, size);
    DivIs(ComputePid(t, id).0, t.group, q);
  }

  /** Inside a group the next tile is in the next row, wrapping around. */
  lemma NextRow(t: Tiling, id: nat)
    requires t.Valid() && id + 1 < t.Tiles()
    ensures t.InGroup() > 0
    ensures id / t.InGroup() == (id + 1) / t.InGroup() ==>
              var first := id / t.InGroup() * t.group; var size := GroupRows(t, first);
              size > 0 && ComputePid(t, id + 1).0 - first == (ComputePid(t, id).0 - first + 1) % size
  {
    GroupBounds(t, id);
    GroupBounds(t, id + 1);
    var size := GroupRows(t, id / t.InGroup() * t.group);
    DivBounds(id, size);
    ModShift(id % size + 1, id / size, size);
    assert id + 1 == (id % size + 1) + id / size * size;
  }

  lemma LocalInRange(t: Tiling, first: int, size: int, n: int, r: int)
    requires t.Valid() && 0 <= first < t.rows && size == GroupRows(t, first) && 0 <= n < t.cols && 0 <= r < size
    ensures 0 <= n * size + r < t.InGroup()
    ensures first * t.cols + n * size + r < t.Tiles()
  {
    MulMonotone(0, n, size);
    MulStrict(n, t.cols, size);
    assert t.cols * size == size * t.cols;
    MulMonotone(size, t.group, t.cols);
    SpanBefore(first, size, t.rows, t.cols);
  }

  // ---- the persistent programs -----------------------------------------------------------

  /** Programs launched: one per SM, but no more than there are tiles. */
  function Grid(sms: nat, tiles: nat): nat { if sms <= tiles then sms else tiles }

  /** The tile a program computes in its `k`-th round. */
  function Visit(sms: nat, program: nat, k: nat): nat { program + k * sms }

  /** Every tile is computed by exactly one launched program in exactly one of its rounds. */
  lemma TileVisitedOnce(sms: nat, tiles: nat, id: nat)
    requires sms > 0 && id < tiles
    ensures 0 <= id % sms < Grid(sms, tiles) && 0 <= id / sms && Visit(sms, id % sms, id / sms) == id
    ensures forall p: nat, k: nat | p < Grid(sms, tiles) && Visit(sms, p, k) == id :: p == id % sms && k == id / sms
  {
    DivBounds(id, sms);
    if id / sms < 0 { MulStrict(id / sms, 0, sms); }
    MulMonotone(0, id / sms, sms);
    forall p: nat, k: nat | p < Grid(sms, tiles) && Visit(sms, p, k) == id
      ensures p == id % sms && k == id / sms
    {
      DivUnique(id, sms, k, p);
    }
  }

  // ---- what one output element is ----------------------------------------------------------

  /** Element arithmetic: `dot` may even depend on the position inside the tile; `finish` adds bias and casts. */
  datatype Ops<!E, !F> = Ops(pad: E, zero: F, dot: (int, int, seq<E>, seq<E>, F) -> F, finish: (F, int) -> E)

  datatype Blocks = Blocks(m: nat, n: nat, k: nat)

  ghost predicate BlocksOk(bs: Blocks) { bs.m > 0 && bs.n > 0 && bs.k > 0 }

  /** One K block of a row or column, padded past the end. */
  function Slice<E>(xs: seq<E>, ki: nat, width: nat, pad: E): seq<E> {
    seq(width, i requires 0 <= i < width =>
      assert 0 <= ki * width by { MulMonotone(0, ki, width); }
      if ki * width + i < |xs| then xs[ki * width + i] else pad)
  }

  /** The accumulator of an element after `ki` K blocks: a fold that sees its row and its column only. */
  function Fold<E, F>(ops: Ops<E, F>, bs: Blocks, r: int, c: int, row: seq<E>, col: seq<E>, ki: nat): F {
    if ki == 0 then ops.zero
    else ops.dot(r, c, Slice(row, ki - 1, bs.k, ops.pad), Slice(col, ki - 1, bs.k, ops.pad),
                 Fold(ops, bs, r, c, row, col, ki - 1))
  }

  /**
   The value at row `i`, column `j`.  The number of rows of the batch is not an
   argument, and neither is any row but `row`.
   */
  function Element<E, F>(ops: Ops<E, F>, bs: Blocks, i: nat, j: nat, row: seq<E>, col: seq<E>): E
    requires bs.m > 0 && bs.n > 0 && bs.k > 0
  {
    CeilDivLeast(|row|, bs.k, -1);
    ops.finish(Fold(ops, bs, i % bs.m, j % bs.n, row, col, CeilDiv(|row|, bs.k)), j)
  }

  // ---- the K blocks of a row are the row ------------------------------------------------------

  /** The first `n` K blocks, end to end. */
  function Joined<E>(xs: seq<E>, width: nat, n: nat, pad: E): seq<E> {
    if n == 0 then [] else Joined(xs, width, n - 1, pad) + Slice(xs, n - 1, width, pad)
  }

  /** Position by position: what the row holds there, padding past its end. */
  lemma {:induction false} JoinedAt<E>(xs: seq<E>, width: nat, n: nat, pad: E)
    ensures |Joined(xs, width, n, pad)| == n * width
    ensures forall k | 0 <= k < n * width :: Joined(xs, width, n, pad)[k] == if k < |xs| then xs[k] else pad
  {
    if n > 0 {
      JoinedAt(xs, width, n - 1, pad);
      Distribute(n - 1, 1, width);
    }
  }

  /**
   The K loop loads the whole row: its blocks, end to end, are the row followed
   by fewer pads than one block holds, so every index is loaded once, in order.
   */
  lemma BlocksAreRow<E>(xs: seq<E>, width: nat, pad: E)
    requires width > 0
    ensures var n := CeilDiv(|xs|, width);
            && 0 <= n && 0 <= n * width - |xs| < width
            && Joined(xs, width, n, pad) == xs + seq(n * width - |xs|, _ => pad)
  {
    var n := CeilDiv(|xs|, width);
    CeilDivLeast(|xs|, width, -1);
    CeilDivBounds(|xs|, width);
    JoinedAt(xs, width, n, pad);
  }

  /** Sum of products. */
  function Inner(a: seq<int>, b: seq<int>): int
    requires |a| == |b|
  {
    if a == [] then 0 else Inner(a[..|a| - 1], b[..|b| - 1]) + a[|a| - 1] * b[|b| - 1]
  }

  lemma {:induction false} InnerAdds(a: seq<int>, b: seq<int>, c: seq<int>, d: seq<int>)
    requires |a| == |b| && |c| == |d|
    ensures Inner(a + c, b + d) == Inner(a, b) + Inner(c, d)
    decreases |c|
  {
    if c == [] {
      assert a + c == a && b + d == b;
    } else {
      var n := |c| - 1;
      InnerAdds(a, b, c[..n], d[..n]);
      assert (a + c)[..|a| + n] == a + c[..n] && (b + d)[..|b| + n] == b + d[..n];
    }
  }

  lemma {:induction false} InnerOfZeros(n: nat)
    ensures Inner(seq(n, _ => 0), seq(n, _ => 0)) == 0
  {
    if n > 0 {
      InnerOfZeros(n - 1);
      assert seq(n, _ => 0)[..n - 1] == seq(n - 1, _ => 0);
    }
  }

  /** Integer arithmetic: padding with zero, a dot that adds the sum of products. */
  ghost predicate IsInner(ops: Ops<int, int>) {
    && ops.pad == 0 && ops.zero == 0
    && forall r, c, a, b, acc | |a| == |b| :: ops.dot(r, c, a, b, acc) == acc + Inner(a, b)
  }

  lemma {:induction false} FoldIsInner(ops: Ops<int, int>, bs: Blocks, r: int, c: int, row: seq<int>, col: seq<int>, ki: nat)
    requires IsInner(ops)
    ensures |Joined(row, bs.k, ki, 0)| == |Joined(col, bs.k, ki, 0)|
    ensures Fold(ops, bs, r, c, row, col, ki) == Inner(Joined(row, bs.k, ki, 0), Joined(col, bs.k, ki, 0))
  {
    JoinedAt(row, bs.k, ki, 0);
    JoinedAt(col, bs.k, ki, 0);
    if ki > 0 {
      FoldIsInner(ops, bs, r, c, row, col, ki - 1);
      InnerAdds(Joined(row, bs.k, ki - 1, 0), Joined(col, bs.k, ki - 1, 0),
                Slice(row, ki - 1, bs.k, 0), Slice(col, ki - 1, bs.k, 0));
      hide Slice, Inner;
    }
  }

  /** With integer arithmetic an element is the finished inner product of its row and its column. */
  lemma ElementIsInner(ops: Ops<int, int>, bs: Blocks, i: nat, j: nat, row: seq<int>, col: seq<int>)
    requires BlocksOk(bs) && IsInner(ops) && |row| == |col|
    ensures Element(ops, bs, i, j, row, col) == ops.finish(Inner(row, col), j)
  {
    hide Inner, Joined, Fold, IsInner;
    var n := CeilDiv(|row|, bs.k);
    BlocksAreRow(row, bs.k, 0);
    BlocksAreRow(col, bs.k, 0);
    FoldIsInner(ops, bs, i % bs.m, j % bs.n, row, col, n);
    var zeros := seq(n * bs.k - |row|, _ => 0);
    InnerAdds(row, col, zeros, zeros);
    InnerOfZeros(n * bs.k - |row|);
  }

  // ---- the kernel ---------------------------------------------------------------------------

  /** Inputs of one launch: `a` by rows, `b` by columns. */
  datatype Input<!E> = Input(a: seq<seq<E>>, b: seq<seq<E>>, k: nat)

  ghost predicate InputOk<E>(x: Input<E>) {
    && (forall i | 0 <= i < |x.a| :: |x.a[i]| == x.k)
    && (forall j | 0 <= j < |x.b| :: |x.b[j]| == x.k)
  }

  function TilingOf<E>(x: Input<E>, bs: Blocks, group: nat): Tiling
    requires bs.m > 0 && bs.n > 0
  {
    CeilDivLeast(|x.a|, bs.m, -1);
    CeilDivLeast(|x.b|, bs.n, -1);
    Tiling(CeilDiv(|x.a|, bs.m), CeilDiv(|x.b|, bs.n), group)
  }

  predicate InTile(bs: Blocks, pidM: int, pidN: int, i: int, j: int) {
    pidM * bs.m <= i < pidM * bs.m + bs.m && pidN * bs.n <= j < pidN * bs.n + bs.n
  }

  /** The tile that covers an element. */
  function HomeTile<E>(x: Input<E>, bs: Blocks, group: nat, i: nat, j: nat): (id: nat)
    requires bs.m > 0 && bs.n > 0 && group > 0 && i < |x.a| && j < |x.b|
    ensures id < TilingOf(x, bs, group).Tiles()
  {
    ElementTile(x, bs, group, i, j);
    InverseThenSwizzle(TilingOf(x, bs, group), i / bs.m, j / bs.n);
    TileOf(TilingOf(x, bs, group), i / bs.m, j / bs.n)
  }

  lemma ElementTile<E>(x: Input<E>, bs: Blocks, group: nat, i: nat, j: nat)
    requires bs.m > 0 && bs.n > 0 && group > 0 && i < |x.a| && j < |x.b|
    ensures 0 <= i / bs.m < TilingOf(x, bs, group).rows && 0 <= j / bs.n < TilingOf(x, bs, group).cols
  {
    BlockIndex(i, |x.a|, bs.m);
    BlockIndex(j, |x.b|, bs.n);
  }

  lemma BlockIndex(i: nat, size: nat, b: nat)
    requires b > 0 && i < size
    ensures 0 <= i / b < CeilDiv(size, b)
  {
    DivBounds(i, b);
    if i / b < 0 { MulStrict(i / b, 0, b); }
    CeilDivBounds(size, b);
    if CeilDiv(size, b) <= i / b { MulMonotone(CeilDiv(size, b), i / b, b); }
  }

  lemma BlockIff(i: int, p: int, b: nat)
    requires b > 0
    ensures p * b <= i < p * b + b <==> i / b == p
  {
    DivBounds(i, b);
    if p * b <= i < p * b + b { DivIs(i, b, p); }
  }

  /** Exactly one tile covers an element of the output. */
  lemma OneTileCovers<E>(x: Input<E>, bs: Blocks, group: nat, i: nat, j: nat, id: nat)
    requires bs.m > 0 && bs.n > 0 && group > 0 && i < |x.a| && j < |x.b| && id < TilingOf(x, bs, group).Tiles()
    ensures var (m, n) := ComputePid(TilingOf(x, bs, group), id);
            InTile(bs, m, n, i, j) <==> id == HomeTile(x, bs, group, i, j)
  {
    hide ComputePid, TileOf;
    var t := TilingOf(x, bs, group);
    var (m, n) := ComputePid(t, id);
    SwizzleThenInverse(t, id);
    ElementTile(x, bs, group, i, j);
    InverseThenSwizzle(t, i / bs.m, j / bs.n);
    BlockIff(i, m, bs.m);
    BlockIff(j, n, bs.n);
  }

  /** Each output element is stored once: by one program, in one round. */
  lemma ElementStoredOnce<E>(x: Input<E>, bs: Blocks, group: nat, sms: nat, i: nat, j: nat, p: nat, k: nat)
    requires bs.m > 0 && bs.n > 0 && group > 0 && sms > 0 && i < |x.a| && j < |x.b|
    requires p < Grid(sms, TilingOf(x, bs, group).Tiles()) && Visit(sms, p, k) < TilingOf(x, bs, group).Tiles()
    ensures var (m, n) := ComputePid(TilingOf(x, bs, group), Visit(sms, p, k));
            var home := HomeTile(x, bs, group, i, j);
            InTile(bs, m, n, i, j) <==> p == home % sms && k == home / sms
  {
    hide ComputePid, HomeTile;
    var t := TilingOf(x, bs, group);
    OneTileCovers(x, bs, group, i, j, Visit(sms, p, k));
    TileVisitedOnce(sms, t.Tiles(), HomeTile(x, bs, group, i, j));
    TileVisitedOnce(sms, t.Tiles(), Visit(sms, p, k));
  }

  function RowOrFirst(size: nat, at: int): int { if at < size then at else 0 }

  /** One K block added to every lane of a tile: rows and columns past the edge load row and column 0. */
  function Accumulate<E, F>(ops: Ops<E, F>, bs: Blocks, x: Input<E>, startM: nat, startN: nat, ki: nat,
                            acc: seq<seq<F>>): seq<seq<F>>
    requires x.a != [] && x.b != [] && |acc| == bs.m && forall r | 0 <= r < bs.m :: |acc[r]| == bs.n
  {
    seq(bs.m, r requires 0 <= r < bs.m =>
      seq(bs.n, c requires 0 <= c < bs.n =>
        ops.dot(r, c, Slice(x.a[RowOrFirst(|x.a|, startM + r)], ki, bs.k, ops.pad),
                Slice(x.b[RowOrFirst(|x.b|, startN + c)], ki, bs.k, ops.pad), acc[r][c])))
  }

  /** What the accumulators hold after `ki` K blocks: each lane the fold over its own row and column. */
  ghost predicate Holds<E, F>(ops: Ops<E, F>, bs: Blocks, x: Input<E>, startM: nat, startN: nat, ki: nat,
                              acc: seq<seq<F>>)
    requires x.a != [] && x.b != []
  {
    && |acc| == bs.m
    && forall r | 0 <= r < bs.m :: |acc[r]| == bs.n && forall c | 0 <= c < bs.n ::
         acc[r][c] == Fold(ops, bs, r, c, x.a[RowOrFirst(|x.a|, startM + r)], x.b[RowOrFirst(|x.b|, startN + c)], ki)
  }

  lemma AccumulateFolds<E, F>(ops: Ops<E, F>, bs: Blocks, x: Input<E>, startM: nat, startN: nat, ki: nat,
                              acc: seq<seq<F>>)
    requires x.a != [] && x.b != [] && Holds(ops, bs, x, startM, startN, ki, acc)
    ensures Holds(ops, bs, x, startM, startN, ki + 1, Accumulate(ops, bs, x, startM, startN, ki, acc))
  {
    hide Slice;
  }

  lemma TileHasRows<E>(x: Input<E>, bs: Blocks, group: nat, id: nat)
    requires bs.m > 0 && bs.n > 0 && id < TilingOf(x, bs, group).Tiles()
    ensures x.a != [] && x.b != []
  {
    if x.a == [] { CeilDivIs(0, bs.m, 0); }
    if x.b == [] { CeilDivIs(0, bs.n, 0); }
  }

  // ---- one program, one load or store at a time ------------------------------------------------

  /** A program's registers: loads go by `tile`, stores by the separately counted `tileC`. */
  datatype Program<!F> = Program(tile: int, tileC: int, at: nat, acc: seq<seq<F>>)

  function KTiles<E>(x: Input<E>, bs: Blocks): nat
    requires bs.k > 0
  {
    CeilDivLeast(x.k, bs.k, -1);
    CeilDiv(x.k, bs.k)
  }

  /** Turns one tile takes: its K blocks, moving to the store tile, and one store per lane. */
  function Turns<E>(x: Input<E>, bs: Blocks): nat
    requires bs.k > 0
  {
    KTiles(x, bs) + 1 + bs.m * bs.n
  }

  /** The lane of an element inside its tile. */
  function Lane(bs: Blocks, i: nat, j: nat): nat
    requires bs.m > 0 && bs.n > 0
  {
    MulMonotone(0, i % bs.m, bs.n);
    i % bs.m * bs.n + j % bs.n
  }

  lemma LaneIff(bs: Blocks, i: nat, j: nat, e: nat)
    requires bs.m > 0 && bs.n > 0
    ensures Lane(bs, i, j) < bs.m * bs.n
    ensures Lane(bs, i, j) == e <==> i % bs.m == e / bs.n && j % bs.n == e % bs.n
  {
    MulMonotone(i % bs.m, bs.m - 1, bs.n);
    DivBounds(e, bs.n);
    if Lane(bs, i, j) == e { DivUnique(e, bs.n, i % bs.m, j % bs.n); }
  }

  /** An order in which the lanes of a tile are stored. */
  ghost predicate IsOrder(order: seq<nat>, lanes: nat) {
    && |order| == lanes && (forall e: nat | e < lanes :: e in order)
    && (forall i | 0 <= i < |order| :: order[i] < lanes)
    && (forall i, j | 0 <= i < j < |order| :: order[i] != order[j])
  }

  /** One order for every tile. */
  ghost predicate OrdersOk(orders: seq<seq<nat>>, bs: Blocks, tiles: nat) {
    |orders| == tiles && forall t | 0 <= t < tiles :: IsOrder(orders[t], bs.m * bs.n)
  }

  ghost function Place(order: seq<nat>, e: nat): (i: nat)
    requires e in order
    ensures i < |order| && order[i] == e
  {
    var i :| 0 <= i < |order| && order[i] == e;
    i
  }

  /** Which of its tile's stores is an element's. */
  ghost function PlaceOf<E>(x: Input<E>, bs: Blocks, group: nat, orders: seq<seq<nat>>, i: nat, j: nat): (at: nat)
    requires bs.m > 0 && bs.n > 0 && group > 0 && i < |x.a| && j < |x.b|
    requires OrdersOk(orders, bs, TilingOf(x, bs, group).Tiles())
    ensures at < bs.m * bs.n
  {
    LaneIff(bs, i, j, 0);
    Place(orders[HomeTile(x, bs, group, i, j)], Lane(bs, i, j))
  }

  lemma PlaceIff<E>(x: Input<E>, bs: Blocks, group: nat, orders: seq<seq<nat>>, i: nat, j: nat, at: nat)
    requires bs.m > 0 && bs.n > 0 && group > 0 && i < |x.a| && j < |x.b| && at < bs.m * bs.n
    requires OrdersOk(orders, bs, TilingOf(x, bs, group).Tiles())
    ensures |orders[HomeTile(x, bs, group, i, j)]| == bs.m * bs.n
    ensures PlaceOf(x, bs, group, orders, i, j) == at <==> Lane(bs, i, j) == orders[HomeTile(x, bs, group, i, j)][at]
  {
    hide HomeTile, Lane;
    LaneIff(bs, i, j, 0);
  }

  /** One masked store: the lane's element of the store tile, if the output has it. */
  method StoreLane<E, F>(ops: Ops<E, F>, bs: Blocks, x: Input<E>, group: nat, tileC: nat, acc: seq<seq<F>>, e: nat,
                         c: array2<E>)
    requires BlocksOk(bs) && InputOk(x) && group > 0 && tileC < TilingOf(x, bs, group).Tiles() && e < bs.m * bs.n
    requires c.Length0 == |x.a| && c.Length1 == |x.b|
    requires Loaded(ops, bs, x, group, tileC, KTiles(x, bs), acc)
    modifies c
    ensures forall i: nat, j: nat | i < |x.a| && j < |x.b| ::
              c[i, j] == if HomeTile(x, bs, group, i, j) == tileC && Lane(bs, i, j) == e
                         then Element(ops, bs, i, j, x.a[i], x.b[j]) else old(c[i, j])
  {
    hide ComputePid, HomeTile, Fold, Slice, Lane;
    var t := TilingOf(x, bs, group);
    TileStarts(x, bs, group, tileC);
    var (storeM, storeN) := ComputePid(t, tileC);
    var r, q := e / bs.n, e % bs.n;
    LaneInTile(bs, e);
    var row, col := storeM * bs.m + r, storeN * bs.n + q;
    if row < |x.a| && col < |x.b| {
      c[row, col] := ops.finish(acc[r][q], col);
    }
    forall i: nat, j: nat | i < |x.a| && j < |x.b|
      ensures c[i, j] == if HomeTile(x, bs, group, i, j) == tileC && Lane(bs, i, j) == e
                         then Element(ops, bs, i, j, x.a[i], x.b[j]) else old(c[i, j])
    {
      OneTileCovers(x, bs, group, i, j, tileC);
      LaneIff(bs, i, j, e);
      if InTile(bs, storeM, storeN, i, j) {
        DivUnique(i, bs.m, storeM, i - storeM * bs.m);
        DivUnique(j, bs.n, storeN, j - storeN * bs.n);
      }
    }
  }

  lemma LaneInTile(bs: Blocks, e: nat)
    requires bs.m > 0 && bs.n > 0 && e < bs.m * bs.n
    ensures 0 <= e / bs.n < bs.m && 0 <= e % bs.n < bs.n
  {
    DivBounds(e, bs.n);
    if e / bs.n >= bs.m { MulMonotone(bs.m, e / bs.n, bs.n); }
    if e / bs.n < 0 { MulStrict(e / bs.n, 0, bs.n); }
  }

  lemma TileStarts<E>(x: Input<E>, bs: Blocks, group: nat, id: nat)
    requires bs.m > 0 && bs.n > 0 && group > 0 && id < TilingOf(x, bs, group).Tiles()
    ensures x.a != [] && x.b != []
    ensures var (m, n) := ComputePid(TilingOf(x, bs, group), id); 0 <= m && 0 <= n && 0 <= m * bs.m && 0 <= n * bs.n
  {
    hide ComputePid;
    var t := TilingOf(x, bs, group);
    SwizzleThenInverse(t, id);
    TileHasRows(x, bs, group, id);
    var (m, n) := ComputePid(t, id);
    MulMonotone(0, m, bs.m);
    MulMonotone(0, n, bs.n);
  }

  /** The accumulators hold `ki` K blocks of this tile. */
  ghost predicate Loaded<E, F>(ops: Ops<E, F>, bs: Blocks, x: Input<E>, group: nat, id: nat, ki: nat, acc: seq<seq<F>>)
    requires bs.m > 0 && bs.n > 0 && group > 0 && id < TilingOf(x, bs, group).Tiles()
  {
    TileStarts(x, bs, group, id);
    var (m, n) := ComputePid(TilingOf(x, bs, group), id);
    Holds(ops, bs, x, m * bs.m, n * bs.n, ki, acc)
  }

  function Zeros<E, F>(ops: Ops<E, F>, bs: Blocks): seq<seq<F>> {
    seq(bs.m, _ => seq(bs.n, _ => ops.zero))
  }

  /** A program's registers in its `k`-th round. */
  ghost predicate Running<E, F>(ops: Ops<E, F>, bs: Blocks, x: Input<E>, group: nat, sms: nat, id: nat, k: nat,
                                p: Program<F>)
    requires BlocksOk(bs) && group > 0
  {
    && p.tile == Visit(sms, id, k) && p.at < Turns(x, bs)
    && p.tileC == (if p.at <= KTiles(x, bs) then p.tile - sms else p.tile)
    && (p.tile < TilingOf(x, bs, group).Tiles() ==>
          Loaded(ops, bs, x, group, p.tile, Min(p.at, KTiles(x, bs)), p.acc))
  }

  /** The store a turn makes, if it makes one. */
  ghost predicate StoresAt<E>(x: Input<E>, bs: Blocks, at: nat, lane: nat)
    requires bs.k > 0
  {
    at == KTiles(x, bs) + 1 + lane
  }

  lemma NextTile<E, F>(ops: Ops<E, F>, bs: Blocks, x: Input<E>, group: nat, sms: nat, id: nat, k: nat)
    requires BlocksOk(bs) && group > 0
    ensures Running(ops, bs, x, group, sms, id, k, Program(Visit(sms, id, k), Visit(sms, id, k) - sms, 0, Zeros(ops, bs)))
  {
  }

  /** One turn of a program that has a tile: a K block, the move to the store tile, or one store. */
  method Advance<E, F>(ops: Ops<E, F>, bs: Blocks, x: Input<E>, group: nat, sms: nat, ghost id: nat, ghost k: nat,
                       p: Program<F>, orders: seq<seq<nat>>, c: array2<E>) returns (q: Program<F>)
    requires BlocksOk(bs) && InputOk(x) && group > 0 && OrdersOk(orders, bs, TilingOf(x, bs, group).Tiles())
    requires Running(ops, bs, x, group, sms, id, k, p) && p.tile < TilingOf(x, bs, group).Tiles()
    requires c.Length0 == |x.a| && c.Length1 == |x.b|
    modifies c
    ensures p.at + 1 < Turns(x, bs) ==> q.at == p.at + 1 && Running(ops, bs, x, group, sms, id, k, q)
    ensures p.at + 1 == Turns(x, bs) ==> q.at == 0 && Running(ops, bs, x, group, sms, id, k + 1, q)
    ensures forall i: nat, j: nat | i < |x.a| && j < |x.b| ::
              c[i, j] == if HomeTile(x, bs, group, i, j) == p.tile && StoresAt(x, bs, p.at, PlaceOf(x, bs, group, orders, i, j))
                         then Element(ops, bs, i, j, x.a[i], x.b[j]) else old(c[i, j])
  {
    hide ComputePid, HomeTile, Fold, Element, Lane, Holds, Accumulate, PlaceOf, OrdersOk;
    var t, kTiles := TilingOf(x, bs, group), KTiles(x, bs);
    TileStarts(x, bs, group, p.tile);
    if p.at < kTiles {
      var (m, n) := ComputePid(t, p.tile);
      HoldsShape(ops, bs, x, m * bs.m, n * bs.n, p.at, p.acc);
      AccumulateFolds(ops, bs, x, m * bs.m, n * bs.n, p.at, p.acc);
      q := p.(acc := Accumulate(ops, bs, x, m * bs.m, n * bs.n, p.at, p.acc), at := p.at + 1);
    } else if p.at == kTiles {
      q := p.(tileC := p.tileC + sms, at := p.at + 1);
    } else {
      ghost var before := p.at - kTiles - 1;
      var e := LaneAt(bs, orders, p.tileC, TilingOf(x, bs, group).Tiles(), p.at - kTiles - 1);
      StoreLane(ops, bs, x, group, p.tileC, p.acc, e, c);
      forall i: nat, j: nat | i < |x.a| && j < |x.b| && HomeTile(x, bs, group, i, j) == p.tile
        ensures Lane(bs, i, j) == e <==> StoresAt(x, bs, p.at, PlaceOf(x, bs, group, orders, i, j))
      {
        PlaceIff(x, bs, group, orders, i, j, before);
      }
      if p.at + 1 < Turns(x, bs) {
        q := p.(at := p.at + 1);
      } else {
        assert Visit(sms, id, k + 1) == p.tile + sms;
        NextTile(ops, bs, x, group, sms, id, k + 1);
        q := Program(p.tile + sms, p.tileC, 0, Zeros(ops, bs));
      }
    }
  }

  /** The lane a tile stores at this turn. */
  method LaneAt(bs: Blocks, orders: seq<seq<nat>>, tile: nat, ghost tiles: nat, at: nat) returns (e: nat)
    requires OrdersOk(orders, bs, tiles) && tile < tiles && at < bs.m * bs.n
    ensures |orders| == tiles && |orders[tile]| == bs.m * bs.n && e == orders[tile][at] < bs.m * bs.n
  {
    e := orders[tile][at];
  }

  lemma HoldsShape<E, F>(ops: Ops<E, F>, bs: Blocks, x: Input<E>, startM: nat, startN: nat, ki: nat, acc: seq<seq<F>>)
    requires x.a != [] && x.b != [] && Holds(ops, bs, x, startM, startN, ki, acc)
    ensures |acc| == bs.m && forall r | 0 <= r < bs.m :: |acc[r]| == bs.n
  {
  }

  // ---- the launch ------------------------------------------------------------------------------

  /** How often a program is scheduled. */
  function Count(schedule: seq<nat>, p: nat): nat {
    if schedule == [] then 0
    else Count(schedule[..|schedule| - 1], p) + (if schedule[|schedule| - 1] == p then 1 else 0)
  }

  /** Every program gets at least the turns its tiles take. */
  ghost predicate Complete<E>(schedule: seq<nat>, sms: nat, x: Input<E>, bs: Blocks, group: nat)
    requires sms > 0 && BlocksOk(bs)
  {
    forall id: nat | id < TilingOf(x, bs, group).Tiles() ::
      (id / sms + 1) * Turns(x, bs) <= Count(schedule, id % sms)
  }

  /** How far the programs are: the round each is in, and its turn within that round. */
  datatype Clock = Clock(rounds: seq<nat>, ats: seq<nat>)

  function Tick(clock: Clock, p: nat, turns: nat): Clock
    requires p < |clock.rounds| == |clock.ats|
  {
    if clock.ats[p] + 1 == turns
    then Clock(clock.rounds[p := clock.rounds[p] + 1], clock.ats[p := 0])
    else clock.(ats := clock.ats[p := clock.ats[p] + 1])
  }

  /** An element has been stored once its program is past its tile, or past its lane of the tile. */
  ghost predicate Stored<E>(x: Input<E>, bs: Blocks, sms: nat, clock: Clock, home: nat, lane: nat)
    requires sms > 0 && bs.k > 0 && |clock.rounds| == |clock.ats|
  {
    var p := home % sms;
    0 <= p < |clock.rounds| && (home / sms < clock.rounds[p] ||
                                (home / sms == clock.rounds[p] && KTiles(x, bs) + 1 + lane < clock.ats[p]))
  }

  /** One turn stores one element, or none; everything else counts as stored just as before. */
  lemma StoredStep<E>(x: Input<E>, bs: Blocks, sms: nat, clock: Clock, p: nat, home: nat, lane: nat)
    requires sms > 0 && BlocksOk(bs) && p < |clock.rounds| == |clock.ats| <= sms && clock.ats[p] < Turns(x, bs)
    requires lane < bs.m * bs.n
    ensures Stored(x, bs, sms, Tick(clock, p, Turns(x, bs)), home, lane)
            <==> || Stored(x, bs, sms, clock, home, lane)
                 || (home == Visit(sms, p, clock.rounds[p]) && StoresAt(x, bs, clock.ats[p], lane))
  {
    DivBounds(home, sms);
    if home == Visit(sms, p, clock.rounds[p]) { DivUnique(home, sms, clock.rounds[p], p); }
  }

  lemma StoredStepAll<E>(x: Input<E>, bs: Blocks, group: nat, sms: nat, orders: seq<seq<nat>>, clock: Clock, p: nat)
    requires sms > 0 && BlocksOk(bs) && group > 0 && OrdersOk(orders, bs, TilingOf(x, bs, group).Tiles())
    requires p < |clock.rounds| == |clock.ats| <= sms && clock.ats[p] < Turns(x, bs)
    ensures forall i: nat, j: nat | i < |x.a| && j < |x.b| ::
              var home, lane := HomeTile(x, bs, group, i, j), PlaceOf(x, bs, group, orders, i, j);
              Stored(x, bs, sms, Tick(clock, p, Turns(x, bs)), home, lane)
              <==> || Stored(x, bs, sms, clock, home, lane)
                   || (home == Visit(sms, p, clock.rounds[p]) && StoresAt(x, bs, clock.ats[p], lane))
  {
    hide HomeTile, PlaceOf, OrdersOk, Stored, Turns, StoresAt, Visit;
    forall i: nat, j: nat | i < |x.a| && j < |x.b|
      ensures var home, lane := HomeTile(x, bs, group, i, j), PlaceOf(x, bs, group, orders, i, j);
              Stored(x, bs, sms, Tick(clock, p, Turns(x, bs)), home, lane)
              <==> || Stored(x, bs, sms, clock, home, lane)
                   || (home == Visit(sms, p, clock.rounds[p]) && StoresAt(x, bs, clock.ats[p], lane))
    {
      StoredStep(x, bs, sms, clock, p, HomeTile(x, bs, group, i, j), PlaceOf(x, bs, group, orders, i, j));
    }
  }

  lemma NothingStored<E>(x: Input<E>, bs: Blocks, group: nat, sms: nat, orders: seq<seq<nat>>, grid: nat)
    requires sms > 0 && BlocksOk(bs) && group > 0 && OrdersOk(orders, bs, TilingOf(x, bs, group).Tiles())
    ensures forall i: nat, j: nat | i < |x.a| && j < |x.b| ::
              !Stored(x, bs, sms, StartClock(grid), HomeTile(x, bs, group, i, j), PlaceOf(x, bs, group, orders, i, j))
  {
    hide HomeTile, PlaceOf, OrdersOk;
    forall i: nat, j: nat | i < |x.a| && j < |x.b|
      ensures !Stored(x, bs, sms, StartClock(grid), HomeTile(x, bs, group, i, j), PlaceOf(x, bs, group, orders, i, j))
    {
      TileVisitedOnce(sms, TilingOf(x, bs, group).Tiles(), HomeTile(x, bs, group, i, j));
    }
  }

  function StartClock(grid: nat): Clock { Clock(seq(grid, _ => 0), seq(grid, _ => 0)) }

  /** A program that still has a tile has used exactly the turns its rounds so far take. */
  ghost predicate OnTime<E, F>(ops: Ops<E, F>, bs: Blocks, x: Input<E>, group: nat, sms: nat, turns: nat, id: nat,
                               k: nat, at: nat, p: Program<F>)
    requires BlocksOk(bs) && group > 0
  {
    && Running(ops, bs, x, group, sms, id, k, p) && at == p.at
    && (p.tile < TilingOf(x, bs, group).Tiles() ==> turns == k * Turns(x, bs) + at)
  }

  /** All programs, after a schedule. */
  ghost predicate Scheduled<E, F>(ops: Ops<E, F>, bs: Blocks, x: Input<E>, group: nat, sms: nat, schedule: seq<nat>,
                                  programs: seq<Program<F>>, clock: Clock)
    requires BlocksOk(bs) && group > 0
  {
    && |clock.rounds| == |clock.ats| == |programs|
    && forall p: nat | p < |programs| ::
         OnTime(ops, bs, x, group, sms, Count(schedule, p), p, clock.rounds[p], clock.ats[p], programs[p])
  }

  function Launched<E, F>(ops: Ops<E, F>, bs: Blocks, sms: nat, grid: nat): seq<Program<F>> {
    seq(grid, p => Program(p, p - sms, 0, Zeros(ops, bs)))
  }

  lemma LaunchStarts<E, F>(ops: Ops<E, F>, bs: Blocks, x: Input<E>, group: nat, sms: nat, grid: nat)
    requires BlocksOk(bs) && group > 0
    ensures Scheduled(ops, bs, x, group, sms, [], Launched(ops, bs, sms, grid), StartClock(grid))
  {
    hide Running, Zeros;
    forall p: nat | p < grid
      ensures OnTime(ops, bs, x, group, sms, 0, p, 0, 0, Launched(ops, bs, sms, grid)[p])
    {
      NextTile(ops, bs, x, group, sms, p, 0);
    }
  }

  lemma TurnTaken<E, F>(ops: Ops<E, F>, bs: Blocks, x: Input<E>, group: nat, sms: nat, schedule: seq<nat>,
                        programs: seq<Program<F>>, clock: Clock, p: nat, q: Program<F>)
    requires BlocksOk(bs) && group > 0 && Scheduled(ops, bs, x, group, sms, schedule, programs, clock)
    requires p < |programs| && programs[p].tile < TilingOf(x, bs, group).Tiles()
    requires Running(ops, bs, x, group, sms, p, Tick(clock, p, Turns(x, bs)).rounds[p], q)
    requires q.at == Tick(clock, p, Turns(x, bs)).ats[p]
    ensures Scheduled(ops, bs, x, group, sms, schedule + [p], programs[p := q], Tick(clock, p, Turns(x, bs)))
  {
    hide Running, Turns;
    var later := Tick(clock, p, Turns(x, bs));
    assert (schedule + [p])[..|schedule|] == schedule;
    Distribute(clock.rounds[p], 1, Turns(x, bs));
    forall o: nat | o < |programs|
      ensures OnTime(ops, bs, x, group, sms, Count(schedule + [p], o), o, later.rounds[o], later.ats[o],
                     programs[p := q][o])
    {
      assert OnTime(ops, bs, x, group, sms, Count(schedule, o), o, clock.rounds[o], clock.ats[o], programs[o]);
    }
  }

  /** A turn given to a program that has finished, or was never launched, changes nothing. */
  lemma TurnIdle<E, F>(ops: Ops<E, F>, bs: Blocks, x: Input<E>, group: nat, sms: nat, schedule: seq<nat>,
                       programs: seq<Program<F>>, clock: Clock, p: nat)
    requires BlocksOk(bs) && group > 0 && Scheduled(ops, bs, x, group, sms, schedule, programs, clock)
    requires p < |programs| ==> programs[p].tile >= TilingOf(x, bs, group).Tiles()
    ensures Scheduled(ops, bs, x, group, sms, schedule + [p], programs, clock)
  {
    hide Running, Turns;
    assert (schedule + [p])[..|schedule|] == schedule;
    forall o: nat | o < |programs|
      ensures OnTime(ops, bs, x, group, sms, Count(schedule + [p], o), o, clock.rounds[o], clock.ats[o], programs[o])
    {
      assert OnTime(ops, bs, x, group, sms, Count(schedule, o), o, clock.rounds[o], clock.ats[o], programs[o]);
    }
  }

  lemma RunningOne<E, F>(ops: Ops<E, F>, bs: Blocks, x: Input<E>, group: nat, sms: nat, schedule: seq<nat>,
                         programs: seq<Program<F>>, clock: Clock, p: nat)
    requires BlocksOk(bs) && group > 0 && Scheduled(ops, bs, x, group, sms, schedule, programs, clock) && p < |programs|
    ensures Running(ops, bs, x, group, sms, p, clock.rounds[p], programs[p])
    ensures clock.ats[p] == programs[p].at < Turns(x, bs) && programs[p].tile == Visit(sms, p, clock.rounds[p])
  {
    assert OnTime(ops, bs, x, group, sms, Count(schedule, p), p, clock.rounds[p], clock.ats[p], programs[p]);
  }

  /** Given all its turns, a program is past every tile of its own. */
  lemma CompleteStores<E, F>(ops: Ops<E, F>, bs: Blocks, x: Input<E>, group: nat, sms: nat, schedule: seq<nat>,
                             programs: seq<Program<F>>, clock: Clock, home: nat, lane: nat)
    requires BlocksOk(bs) && group > 0 && sms > 0 && Scheduled(ops, bs, x, group, sms, schedule, programs, clock)
    requires Complete(schedule, sms, x, bs, group) && home < TilingOf(x, bs, group).Tiles()
    requires |programs| == Grid(sms, TilingOf(x, bs, group).Tiles())
    ensures Stored(x, bs, sms, clock, home, lane)
  {
    hide Running, Turns;
    var tiles := TilingOf(x, bs, group).Tiles();
    TileVisitedOnce(sms, tiles, home);
    var p, k := home % sms, clock.rounds[home % sms];
    assert OnTime(ops, bs, x, group, sms, Count(schedule, p), p, k, clock.ats[p], programs[p]);
    RunningOne(ops, bs, x, group, sms, schedule, programs, clock, p);
    if k <= home / sms {
      MulMonotone(k, home / sms, sms);
      MulMonotone(k + 1, home / sms + 1, Turns(x, bs));
      Distribute(k, 1, Turns(x, bs));
    }
  }

  /**
   The launch under any interleaving of the programs' loads and stores, with the
   lanes of each tile stored in any order.  At any moment each element is untouched or already final; once every program has had
   its turns, each is the fold over its own row and column.
   */
  method Launch<E, F>(ops: Ops<E, F>, bs: Blocks, x: Input<E>, group: nat, sms: nat, c: array2<E>, schedule: seq<nat>,
                      orders: seq<seq<nat>>)
    requires BlocksOk(bs) && InputOk(x) && group > 0 && sms > 0 && OrdersOk(orders, bs, TilingOf(x, bs, group).Tiles())
    requires c.Length0 == |x.a| && c.Length1 == |x.b|
    modifies c
    ensures forall i: nat, j: nat | i < |x.a| && j < |x.b| ::
              c[i, j] == old(c[i, j]) || c[i, j] == Element(ops, bs, i, j, x.a[i], x.b[j])
    ensures Complete(schedule, sms, x, bs, group) ==>
              forall i: nat, j: nat | i < |x.a| && j < |x.b| :: c[i, j] == Element(ops, bs, i, j, x.a[i], x.b[j])
  {
    hide HomeTile, Element, PlaceOf, OrdersOk, Stored, Running, Scheduled, Complete, Turns, StoresAt, Tick, StartClock, Launched, Visit;
    var tiles := TilingOf(x, bs, group).Tiles();
    var grid := Grid(sms, tiles);
    var programs := Launched(ops, bs, sms, grid);
    ghost var clock := StartClock(grid);
    LaunchStarts(ops, bs, x, group, sms, grid);
    NothingStored(x, bs, group, sms, orders, grid);
    Sizes(ops, bs, sms, grid);
    for n := 0 to |schedule|
      invariant |clock.rounds| == |clock.ats| == |programs| == grid
      invariant Scheduled(ops, bs, x, group, sms, schedule[..n], programs, clock)
      invariant forall i: nat, j: nat | i < |x.a| && j < |x.b| ::
                  c[i, j] == if Stored(x, bs, sms, clock, HomeTile(x, bs, group, i, j), PlaceOf(x, bs, group, orders, i, j))
                             then Element(ops, bs, i, j, x.a[i], x.b[j]) else old(c[i, j])
    {
      var p := schedule[n];
      assert schedule[..n + 1] == schedule[..n] + [p];
      if p < grid && programs[p].tile < tiles {
        RunningOne(ops, bs, x, group, sms, schedule[..n], programs, clock, p);
        StoredStepAll(x, bs, group, sms, orders, clock, p);
        TickIs(clock, p, Turns(x, bs));
        var q := Advance(ops, bs, x, group, sms, p, clock.rounds[p], programs[p], orders, c);
        TurnTaken(ops, bs, x, group, sms, schedule[..n], programs, clock, p, q);
        programs, clock := programs[p := q], Tick(clock, p, Turns(x, bs));
      } else {
        TurnIdle(ops, bs, x, group, sms, schedule[..n], programs, clock, p);
      }
    }
    assert schedule[..|schedule|] == schedule;
    forall i: nat, j: nat | Complete(schedule, sms, x, bs, group) && i < |x.a| && j < |x.b|
      ensures c[i, j] == Element(ops, bs, i, j, x.a[i], x.b[j])
    {
      CompleteStores(ops, bs, x, group, sms, schedule, programs, clock, HomeTile(x, bs, group, i, j),
                     PlaceOf(x, bs, group, orders, i, j));
    }
  }

  lemma Sizes<E, F>(ops: Ops<E, F>, bs: Blocks, sms: nat, grid: nat)
    ensures |Launched(ops, bs, sms, grid)| == |StartClock(grid).rounds| == |StartClock(grid).ats| == grid
  {
  }

  lemma TickIs(clock: Clock, p: nat, turns: nat)
    requires p < |clock.rounds| == |clock.ats|
    ensures |Tick(clock, p, turns).rounds| == |Tick(clock, p, turns).ats| == |clock.rounds|
    ensures Tick(clock, p, turns).rounds[p] == if clock.ats[p] + 1 == turns then clock.rounds[p] + 1 else clock.rounds[p]
    ensures Tick(clock, p, turns).ats[p] == if clock.ats[p] + 1 == turns then 0 else clock.ats[p] + 1
  {
  }

  /**
   Batch invariance: two launches with different batch sizes, group sizes, SM
   counts, schedules and store orders give the same value wherever their rows agree.
   */
  method SameRowSameResult<E, F>(ops: Ops<E, F>, bs: Blocks, x: Input<E>, y: Input<E>, gx: nat, gy: nat, px: nat, py: nat,
                                 cx: array2<E>, cy: array2<E>, sx: seq<nat>, sy: seq<nat>,
                                 ox: seq<seq<nat>>, oy: seq<seq<nat>>)
    requires BlocksOk(bs) && InputOk(x) && InputOk(y) && gx > 0 && gy > 0 && px > 0 && py > 0 && x.b == y.b && cx != cy
    requires cx.Length0 == |x.a| && cx.Length1 == |x.b| && cy.Length0 == |y.a| && cy.Length1 == |y.b|
    requires Complete(sx, px, x, bs, gx) && Complete(sy, py, y, bs, gy)
    requires OrdersOk(ox, bs, TilingOf(x, bs, gx).Tiles()) && OrdersOk(oy, bs, TilingOf(y, bs, gy).Tiles())
    modifies cx, cy
    ensures forall i, j | 0 <= i < |x.a| && i < |y.a| && 0 <= j < |x.b| && x.a[i] == y.a[i] :: cx[i, j] == cy[i, j]
  {
    hide Element, Complete, OrdersOk;
    Launch(ops, bs, x, gx, px, cx, sx, ox);
    Launch(ops, bs, y, gy, py, cy, sy, oy);
  }

  /** A finished launch over integers is the matrix product, every product counted once. */
  method LaunchIsProduct(ops: Ops<int, int>, bs: Blocks, x: Input<int>, group: nat, sms: nat, c: array2<int>,
                         schedule: seq<nat>, orders: seq<seq<nat>>)
    requires BlocksOk(bs) && InputOk(x) && group > 0 && sms > 0 && OrdersOk(orders, bs, TilingOf(x, bs, group).Tiles())
    requires c.Length0 == |x.a| && c.Length1 == |x.b|
    requires IsInner(ops) && Complete(schedule, sms, x, bs, group)
    modifies c
    ensures forall i: nat, j: nat | i < |x.a| && j < |x.b| :: c[i, j] == ops.finish(Inner(x.a[i], x.b[j]), j)
  {
    hide Element, Complete, OrdersOk, IsInner, Inner;
    Launch(ops, bs, x, group, sms, c, schedule, orders);
    forall i: nat, j: nat | i < |x.a| && j < |x.b| ensures c[i, j] == ops.finish(Inner(x.a[i], x.b[j]), j) {
      ElementIsInner(ops, bs, i, j, x.a[i], x.b[j]);
    }
  }
}
