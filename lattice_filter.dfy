/** Filtering over a built lattice (the source's `seqCompute`): splat the
    input values onto the lattice vertices, blur along each of the d+1 axes
    with the 1/2, 1, 1/2 kernel, and slice back at the sample positions.
    Value buffers have M+2 rows: vertex id `i` lives in row i+1, so the
    missing-neighbour id -1 lands in row 0, which is never written. */
module LatticeFilter {
  import opened Sums

  /** The ids of a vertex's lower and upper neighbour along one axis, -1
      when absent. */
  datatype Neighbours = Neighbours(n1: int, n2: int)

  function Pow2(d: nat): (p: real)
    ensures p >= 1.0
  {
    if d == 0 then 1.0 else 2.0 * Pow2(d - 1)
  }

  /** The slicing scale 1 / (1 + 2^-d). */
  function Alpha(d: nat): (a: real)
    ensures a * (Pow2(d) + 1.0) == Pow2(d)
  {
    var p := Pow2(d);
    assert 1.0 / (1.0 + 1.0 / p) == p / (p + 1.0);
    1.0 / (1.0 + 1.0 / p)
  }

  /** Per sample, d+1 vertex ids in 0..M-1 and d+1 weights. */
  ghost predicate SampleLayout(offsets: seq<seq<int>>, bary: seq<seq<real>>, d: nat, M: nat)
  {
    && |bary| == |offsets|
    && (forall i :: 0 <= i < |offsets| ==> |offsets[i]| == d + 1 && |bary[i]| == d + 1)
    && (forall i, j :: 0 <= i < |offsets| && 0 <= j <= d ==> 0 <= offsets[i][j] < M)
  }

  /** Per axis, one neighbour pair per vertex, each id in -1..M-1. */
  ghost predicate NeighbourLayout(nb: seq<seq<Neighbours>>, d: nat, M: nat)
  {
    && |nb| == d + 1
    && (forall j :: 0 <= j <= d ==> |nb[j]| == M)
    && (forall j, i :: 0 <= j <= d && 0 <= i < M ==> -1 <= nb[j][i].n1 < M && -1 <= nb[j][i].n2 < M)
  }

  /** `rows` is an m x vs matrix. */
  ghost predicate Shaped(rows: seq<seq<real>>, m: nat, vs: nat)
  {
    |rows| == m && forall r :: 0 <= r < m ==> |rows[r]| == vs
  }

  /** The array holds exactly the matrix `rows`. */
  ghost predicate Holds(a: array2<real>, rows: seq<seq<real>>)
    reads a
  {
    Shaped(rows, a.Length0, a.Length1)
    && forall r, k :: 0 <= r < a.Length0 && 0 <= k < a.Length1 ==> a[r, k] == rows[r][k]
  }

  function ZeroRow(vs: nat): seq<real>
  {
    seq(vs, _ => 0.0)
  }

  /* ---------------- splatting ---------------- */

  /** What the first `j` vertices of one sample add to column k of buffer
      row `o`: the weight times the value for each vertex stored in row o. */
  function Contribution(off: seq<int>, w: seq<real>, x: seq<real>, o: int, k: int, j: nat): real
    requires j <= |off| && j <= |w| && 0 <= k < |x|
  {
    if j == 0 then 0.0
    else Contribution(off, w, x, o, k, j - 1) + (if off[j - 1] + 1 == o then w[j - 1] * x[k] else 0.0)
  }

  /** Column k of buffer row `o` after splatting samples lo..hi-1. */
  function SplatSum(offsets: seq<seq<int>>, bary: seq<seq<real>>, inp: seq<seq<real>>, d: nat, vs: nat,
                    o: int, k: int, lo: nat, hi: nat): real
    requires lo <= hi <= |offsets| == |bary| && hi <= |inp| && 0 <= k < vs
    requires forall i :: lo <= i < hi ==> |offsets[i]| == d + 1 && |bary[i]| == d + 1 && |inp[i]| == vs
    decreases hi
  {
    if hi == lo then 0.0
    else SplatSum(offsets, bary, inp, d, vs, o, k, lo, hi - 1)
         + Contribution(offsets[hi - 1], bary[hi - 1], inp[hi - 1], o, k, d + 1)
  }

  ghost predicate Inputs(inp: seq<seq<real>>, n: nat, vs: nat)
  {
    |inp| >= n && forall i :: 0 <= i < n ==> |inp[i]| == vs
  }

  /** The M+2 buffer rows after splatting samples start..N-1. */
  ghost function SplatRows(offsets: seq<seq<int>>, bary: seq<seq<real>>, inp: seq<seq<real>>,
                           d: nat, M: nat, vs: nat, start: nat): (rows: seq<seq<real>>)
    requires SampleLayout(offsets, bary, d, M) && Inputs(inp, |offsets|, vs)
    ensures Shaped(rows, M + 2, vs)
  {
    var lo := if start < |offsets| then start else |offsets|;
    seq(M + 2, o => seq(vs, k requires 0 <= k < vs => SplatSum(offsets, bary, inp, d, vs, o, k, lo, |offsets|)))
  }

  /** Accumulates every sample from `start` on into the zeroed buffer. */
  method Splat(values: array2<real>, offsets: seq<seq<int>>, bary: seq<seq<real>>, inp: seq<seq<real>>,
               d: nat, M: nat, vs: nat, start: nat)
    requires SampleLayout(offsets, bary, d, M) && Inputs(inp, |offsets|, vs)
    requires values.Length0 == M + 2 && values.Length1 == vs
    requires forall r, k :: 0 <= r < M + 2 && 0 <= k < vs ==> values[r, k] == 0.0
    modifies values
    ensures Holds(values, SplatRows(offsets, bary, inp, d, M, vs, start))
  {
    var n := |offsets|;
    var lo := if start < n then start else n;
    for i := lo to n
      invariant forall r, k :: 0 <= r < M + 2 && 0 <= k < vs ==>
                  values[r, k] == SplatSum(offsets, bary, inp, d, vs, r, k, lo, i)
    {
      SplatPoint(values, offsets[i], bary[i], inp[i], d, M, vs);
    }
  }

  /** Adds one sample's input vector, weighted, to the rows of its d+1
      vertices. */
  method SplatPoint(values: array2<real>, off: seq<int>, b: seq<real>, x: seq<real>, d: nat, M: nat, vs: nat)
    requires |off| == |b| == d + 1 && |x| == vs && forall j :: 0 <= j <= d ==> 0 <= off[j] < M
    requires values.Length0 == M + 2 && values.Length1 == vs
    modifies values
    ensures forall r, k :: 0 <= r < M + 2 && 0 <= k < vs ==>
              values[r, k] == old(values[r, k]) + Contribution(off, b, x, r, k, d + 1)
  {
    for j := 0 to d + 1
      invariant forall r, k :: 0 <= r < M + 2 && 0 <= k < vs ==>
                  values[r, k] == old(values[r, k]) + Contribution(off, b, x, r, k, j)
    {
      var o := off[j] + 1;
      var w := b[j];
      for k := 0 to vs
        invariant forall r, k' :: 0 <= r < M + 2 && 0 <= k' < vs ==>
                    values[r, k'] == old(values[r, k']) + Contribution(off, b, x, r, k', if r == o && k' < k then j + 1 else j)
      {
        values[o, k] := values[o, k] + w * x[k];
      }
    }
  }

  lemma {:induction false} ContributionElsewhere(off: seq<int>, w: seq<real>, x: seq<real>, o: int, k: int, j: nat)
    requires j <= |off| && j <= |w| && 0 <= k < |x|
    requires forall t :: 0 <= t < j ==> off[t] + 1 != o
    ensures Contribution(off, w, x, o, k, j) == 0.0
  {
    if j > 0 {
      ContributionElsewhere(off, w, x, o, k, j - 1);
    }
  }

  /** Vertex ids are 0..M-1, so splatting writes only rows 1..M: rows 0 and
      M+1 stay zero. */
  lemma SplatBorderZero(offsets: seq<seq<int>>, bary: seq<seq<real>>, inp: seq<seq<real>>,
                        d: nat, M: nat, vs: nat, start: nat)
    requires SampleLayout(offsets, bary, d, M) && Inputs(inp, |offsets|, vs)
    ensures SplatRows(offsets, bary, inp, d, M, vs, start)[0] == ZeroRow(vs)
    ensures SplatRows(offsets, bary, inp, d, M, vs, start)[M + 1] == ZeroRow(vs)
  {
    var lo := if start < |offsets| then start else |offsets|;
    forall o, k | (o == 0 || o == M + 1) && 0 <= k < vs
      ensures SplatSum(offsets, bary, inp, d, vs, o, k, lo, |offsets|) == 0.0
    {
      SplatSumElsewhere(offsets, bary, inp, d, vs, o, k, lo, |offsets|);
    }
  }

  /** A row that no sample's vertex maps to receives nothing. */
  lemma {:induction false} SplatSumElsewhere(offsets: seq<seq<int>>, bary: seq<seq<real>>, inp: seq<seq<real>>,
                                             d: nat, vs: nat, o: int, k: int, lo: nat, hi: nat)
    requires lo <= hi <= |offsets| == |bary| && hi <= |inp| && 0 <= k < vs
    requires forall i :: lo <= i < hi ==> |offsets[i]| == d + 1 && |bary[i]| == d + 1 && |inp[i]| == vs
    requires forall i, j :: lo <= i < hi && 0 <= j <= d ==> offsets[i][j] + 1 != o
    ensures SplatSum(offsets, bary, inp, d, vs, o, k, lo, hi) == 0.0
    decreases hi
  {
    if hi > lo {
      SplatSumElsewhere(offsets, bary, inp, d, vs, o, k, lo, hi - 1);
      ContributionElsewhere(offsets[hi - 1], bary[hi - 1], inp[hi - 1], o, k, d + 1);
    }
  }

  /** A sample's contribution depends only on its first `j` vertices. */
  lemma {:induction false} ContributionPrefix(off: seq<int>, w: seq<real>, off': seq<int>, w': seq<real>,
                                              x: seq<real>, o: int, k: int, j: nat)
    requires j <= |off| && j <= |w| && j <= |off'| && j <= |w'| && 0 <= k < |x|
    requires off[..j] == off'[..j] && w[..j] == w'[..j]
    ensures Contribution(off, w, x, o, k, j) == Contribution(off', w', x, o, k, j)
  {
    if j > 0 {
      assert off[..j - 1] == off[..j][..j - 1] && off'[..j - 1] == off'[..j][..j - 1];
      assert w[..j - 1] == w[..j][..j - 1] && w'[..j - 1] == w'[..j][..j - 1];
      assert off[j - 1] == off[..j][j - 1] && off'[j - 1] == off'[..j][j - 1];
      assert w[j - 1] == w[..j][j - 1] && w'[j - 1] == w'[..j][j - 1];
      ContributionPrefix(off, w, off', w', x, o, k, j - 1);
    }
  }

  /** Splatting samples lo..hi-1 depends only on those samples. */
  lemma {:induction false} SplatSumPrefix(offsets: seq<seq<int>>, bary: seq<seq<real>>,
                                          offsets': seq<seq<int>>, bary': seq<seq<real>>, inp: seq<seq<real>>,
                                          d: nat, vs: nat, o: int, k: int, lo: nat, hi: nat)
    requires lo <= hi <= |offsets| == |bary| && hi <= |offsets'| == |bary'| && hi <= |inp| && 0 <= k < vs
    requires forall i :: lo <= i < hi ==> |offsets[i]| == d + 1 && |bary[i]| == d + 1 && |inp[i]| == vs
    requires forall i :: lo <= i < hi ==> offsets'[i] == offsets[i] && bary'[i] == bary[i]
    ensures SplatSum(offsets, bary, inp, d, vs, o, k, lo, hi) == SplatSum(offsets', bary', inp, d, vs, o, k, lo, hi)
    decreases hi
  {
    if hi > lo {
      SplatSumPrefix(offsets, bary, offsets', bary', inp, d, vs, o, k, lo, hi - 1);
    }
  }

  /* ---------------- blurring ---------------- */

  /** Column k of buffer row r after one blur pass along an axis: a vertex
      row becomes itself plus half the sum of its two neighbours' rows;
      rows 0 and M+1 are zero. */
  function BlurValue(src: seq<seq<real>>, nb: seq<Neighbours>, M: nat, vs: nat, r: int, k: int): real
    requires Shaped(src, M + 2, vs) && |nb| == M && 0 <= k < vs
    requires forall i :: 0 <= i < M ==> -1 <= nb[i].n1 < M && -1 <= nb[i].n2 < M
  {
    if 1 <= r <= M then src[r][k] + 0.5 * (src[nb[r - 1].n1 + 1][k] + src[nb[r - 1].n2 + 1][k])
    else 0.0
  }

  /** The whole buffer after one blur pass. */
  ghost function BlurPass(src: seq<seq<real>>, nb: seq<Neighbours>, M: nat, vs: nat): (dst: seq<seq<real>>)
    requires Shaped(src, M + 2, vs) && |nb| == M
    requires forall i :: 0 <= i < M ==> -1 <= nb[i].n1 < M && -1 <= nb[i].n2 < M
    ensures Shaped(dst, M + 2, vs)
  {
    seq(M + 2, r => seq(vs, k requires 0 <= k < vs => BlurValue(src, nb, M, vs, r, k)))
  }

  /** The axes in blur order: 0..d, or d..0 when reversed. */
  function AxisOrder(d: nat, reverse: bool): (order: seq<int>)
    ensures |order| == d + 1 && forall p :: 0 <= p <= d ==> 0 <= order[p] <= d
  {
    seq(d + 1, p => if reverse then d - p else p)
  }

  /** The buffer after the first `n` passes in blur order. */
  ghost function Blurred(rows: seq<seq<real>>, nb: seq<seq<Neighbours>>, reverse: bool,
                         d: nat, M: nat, vs: nat, n: nat): (res: seq<seq<real>>)
    requires Shaped(rows, M + 2, vs) && NeighbourLayout(nb, d, M)
    requires n <= d + 1
    ensures Shaped(res, M + 2, vs)
  {
    if n == 0 then rows else BlurPass(Blurred(rows, nb, reverse, d, M, vs, n - 1), nb[AxisOrder(d, reverse)[n - 1]], M, vs)
  }

  /** Writes one blur pass of `src` into rows 1..M of `dst`. */
  method BlurAxis(src: array2<real>, dst: array2<real>, ghost rows: seq<seq<real>>, nb: seq<Neighbours>, M: nat, vs: nat)
    requires src != dst
    requires src.Length0 == dst.Length0 == M + 2 && src.Length1 == dst.Length1 == vs
    requires Holds(src, rows) && |nb| == M
    requires forall i :: 0 <= i < M ==> -1 <= nb[i].n1 < M && -1 <= nb[i].n2 < M
    requires forall r, k :: (r == 0 || r == M + 1) && 0 <= k < vs ==> dst[r, k] == 0.0
    modifies dst
    ensures Holds(dst, BlurPass(rows, nb, M, vs))
  {
    for i := 0 to M
      invariant forall r, k :: 0 <= r < M + 2 && 0 <= k < vs && !(1 <= r <= i) ==> dst[r, k] == old(dst[r, k])
      invariant forall r, k :: 1 <= r <= i && 0 <= k < vs ==> dst[r, k] == BlurValue(rows, nb, M, vs, r, k)
    {
      var n1 := nb[i].n1 + 1;
      var n2 := nb[i].n2 + 1;
      for k := 0 to vs
        invariant forall r, k' :: 0 <= r < M + 2 && 0 <= k' < vs && !(1 <= r <= i) && !(r == i + 1 && k' < k) ==>
                    dst[r, k'] == old(dst[r, k'])
        invariant forall r, k' :: 1 <= r <= i + 1 && 0 <= k' < vs && (r <= i || k' < k) ==>
                    dst[r, k'] == BlurValue(rows, nb, M, vs, r, k')
      {
        dst[i + 1, k] := src[i + 1, k] + 0.5 * (src[n1, k] + src[n2, k]);
      }
    }
    forall r, k | 0 <= r < M + 2 && 0 <= k < vs
      ensures dst[r, k] == BlurValue(rows, nb, M, vs, r, k)
    {
      if r == 0 {
        assert dst[0, k] == old(dst[0, k]) == 0.0;
      } else if r == M + 1 {
        assert dst[M + 1, k] == old(dst[M + 1, k]) == 0.0;
      }
    }
  }

  /** Every buffer in the blur keeps rows 0 and M+1 zero. */
  lemma {:induction false} BlurredBorderZero(rows: seq<seq<real>>, nb: seq<seq<Neighbours>>, reverse: bool,
                                             d: nat, M: nat, vs: nat, n: nat)
    requires Shaped(rows, M + 2, vs) && NeighbourLayout(nb, d, M)
    requires n <= d + 1
    requires rows[0] == ZeroRow(vs) && rows[M + 1] == ZeroRow(vs)
    ensures Blurred(rows, nb, reverse, d, M, vs, n)[0] == ZeroRow(vs)
    ensures Blurred(rows, nb, reverse, d, M, vs, n)[M + 1] == ZeroRow(vs)
  {
  }

  /** A missing neighbour (id -1) reads row 0 and so contributes nothing. */
  lemma MissingNeighbourContributesNothing(src: seq<seq<real>>, nb: seq<Neighbours>, M: nat, vs: nat, i: nat, k: nat)
    requires Shaped(src, M + 2, vs) && |nb| == M
    requires forall t :: 0 <= t < M ==> -1 <= nb[t].n1 < M && -1 <= nb[t].n2 < M
    requires src[0] == ZeroRow(vs) && i < M && k < vs
    ensures nb[i].n1 == -1 ==>
              BlurPass(src, nb, M, vs)[i + 1][k] == src[i + 1][k] + 0.5 * src[nb[i].n2 + 1][k]
    ensures nb[i].n2 == -1 ==>
              BlurPass(src, nb, M, vs)[i + 1][k] == src[i + 1][k] + 0.5 * src[nb[i].n1 + 1][k]
  {
    assert src[0][k] == 0.0;
  }

  /** The blur visits every axis exactly once, the reversed order being the
      forward order backwards. */
  lemma AxisOrderVisitsEachAxisOnce(d: nat, reverse: bool)
    ensures forall p :: 0 <= p <= d ==> 0 <= AxisOrder(d, reverse)[p] <= d
    ensures forall p, q :: 0 <= p < q <= d ==> AxisOrder(d, reverse)[p] != AxisOrder(d, reverse)[q]
    ensures forall a :: 0 <= a <= d ==> a in AxisOrder(d, reverse)
    ensures forall p :: 0 <= p <= d ==> AxisOrder(d, true)[p] == AxisOrder(d, false)[d - p]
  {
    forall a | 0 <= a <= d
      ensures a in AxisOrder(d, reverse)
    {
      assert AxisOrder(d, reverse)[if reverse then d - a else a] == a;
    }
  }

  /* ---------------- slicing ---------------- */

  /** Output column k of a sample: the sum over its first `j` vertices of
      weight times the vertex row, times alpha. */
  function SliceSum(rows: seq<seq<real>>, off: seq<int>, w: seq<real>, k: int, alpha: real, j: nat): real
    requires j <= |off| && j <= |w|
    requires 0 <= k && forall t :: 0 <= t < j ==> 0 <= off[t] + 1 < |rows| && k < |rows[off[t] + 1]|
  {
    if j == 0 then 0.0
    else SliceSum(rows, off, w, k, alpha, j - 1) + w[j - 1] * rows[off[j - 1] + 1][k] * alpha
  }

  /** Zeroes each output row, then accumulates the weighted vertex rows. */
  method Slice(out: array2<real>, values: array2<real>, ghost rows: seq<seq<real>>,
               offsets: seq<seq<int>>, bary: seq<seq<real>>, d: nat, M: nat, vs: nat)
    requires out != values
    requires SampleLayout(offsets, bary, d, M)
    requires values.Length0 == M + 2 && values.Length1 == vs && Holds(values, rows)
    requires out.Length0 >= |offsets| && out.Length1 == vs
    modifies out
    ensures forall i, k :: 0 <= i < |offsets| && 0 <= k < vs ==>
              out[i, k] == SliceSum(rows, offsets[i], bary[i], k, Alpha(d), d + 1)
    ensures forall i, k :: |offsets| <= i < out.Length0 && 0 <= k < vs ==> out[i, k] == old(out[i, k])
  {
    for i := 0 to |offsets|
      invariant forall i', k :: 0 <= i' < i && 0 <= k < vs ==>
                  out[i', k] == SliceSum(rows, offsets[i'], bary[i'], k, Alpha(d), d + 1)
      invariant forall i', k :: i <= i' < out.Length0 && 0 <= k < vs ==> out[i', k] == old(out[i', k])
    {
      SliceRow(out, values, rows, offsets[i], bary[i], i, d, M, vs);
    }
  }

  /** Zeroes output row i, then adds each of its d+1 vertex rows weighted
      by its barycentric weight and alpha. */
  method SliceRow(out: array2<real>, values: array2<real>, ghost rows: seq<seq<real>>,
                  off: seq<int>, b: seq<real>, i: nat, d: nat, M: nat, vs: nat)
    requires out != values && |off| == |b| == d + 1 && forall j :: 0 <= j <= d ==> 0 <= off[j] < M
    requires values.Length0 == M + 2 && values.Length1 == vs && Holds(values, rows)
    requires i < out.Length0 && out.Length1 == vs
    modifies out
    ensures forall i', k :: 0 <= i' < out.Length0 && 0 <= k < vs ==>
              out[i', k] == if i' == i then SliceSum(rows, off, b, k, Alpha(d), d + 1) else old(out[i', k])
  {
    var alpha := Alpha(d);
    for k := 0 to vs
      invariant forall i', k' :: 0 <= i' < out.Length0 && 0 <= k' < vs ==>
                  out[i', k'] == if i' == i && k' < k then 0.0 else old(out[i', k'])
    {
      out[i, k] := 0.0;
    }
    for j := 0 to d + 1
      invariant forall i', k :: 0 <= i' < out.Length0 && 0 <= k < vs ==>
                  out[i', k] == if i' == i then SliceSum(rows, off, b, k, alpha, j) else old(out[i', k])
    {
      var o := off[j] + 1;
      var w := b[j];
      for k := 0 to vs
        invariant forall i', k' :: 0 <= i' < out.Length0 && 0 <= k' < vs ==>
                    out[i', k'] == if i' == i then SliceSum(rows, off, b, k', alpha, if k' < k then j + 1 else j)
                                   else old(out[i', k'])
      {
        out[i, k] := out[i, k] + w * values[o, k] * alpha;
      }
    }
  }

  /** Slicing reproduces a constant: if every vertex row the sample touches
      holds c in column k, the output is (sum of the weights) * c * alpha, so
      with weights summing to 1 exactly alpha * c. */
  lemma {:induction false} SliceOfConstant(rows: seq<seq<real>>, off: seq<int>, w: seq<real>, k: int, alpha: real,
                                           j: nat, c: real)
    requires j <= |off| && j <= |w|
    requires 0 <= k && forall t :: 0 <= t < j ==> 0 <= off[t] + 1 < |rows| && k < |rows[off[t] + 1]|
    requires forall t :: 0 <= t < j ==> rows[off[t] + 1][k] == c
    ensures SliceSum(rows, off, w, k, alpha, j) == Sum(w[..j]) * c * alpha
  {
    if j > 0 {
      SliceOfConstant(rows, off, w, k, alpha, j - 1, c);
      assert w[..j][..j - 1] == w[..j - 1];
      assert Sum(w[..j]) * c * alpha == Sum(w[..j - 1]) * c * alpha + w[j - 1] * c * alpha;
    }
  }

  /* ---------------- the whole filter ---------------- */

  /** The buffer the slice reads: the splatted rows, blurred along every
      axis in blur order when blurring. */
  ghost function Filtered(offsets: seq<seq<int>>, bary: seq<seq<real>>, inp: seq<seq<real>>, nb: seq<seq<Neighbours>>,
                          d: nat, M: nat, vs: nat, blur: bool, reverse: bool, start: nat): (rows: seq<seq<real>>)
    requires SampleLayout(offsets, bary, d, M) && Inputs(inp, |offsets|, vs)
    requires blur ==> NeighbourLayout(nb, d, M)
    ensures Shaped(rows, M + 2, vs)
  {
    var s := SplatRows(offsets, bary, inp, d, M, vs, start);
    if blur then Blurred(s, nb, reverse, d, M, vs, d + 1) else s
  }

  /** Splats samples start..N-1 into a zeroed buffer of M+2 rows, blurs it
      along the d+1 axes (forwards or backwards) swapping two buffers, and
      slices every sample's output row. */
  method Compute(out: array2<real>, inp: seq<seq<real>>, offsets: seq<seq<int>>, bary: seq<seq<real>>,
                 nb: seq<seq<Neighbours>>, d: nat, M: nat, vs: nat, blur: bool, reverse: bool, start: nat)
    requires SampleLayout(offsets, bary, d, M) && Inputs(inp, |offsets|, vs)
    requires blur ==> NeighbourLayout(nb, d, M)
    requires out.Length0 >= |offsets| && out.Length1 == vs
    modifies out
    ensures forall i, k :: 0 <= i < |offsets| && 0 <= k < vs ==>
              out[i, k] == SliceSum(Filtered(offsets, bary, inp, nb, d, M, vs, blur, reverse, start),
                                    offsets[i], bary[i], k, Alpha(d), d + 1)
    ensures forall i, k :: |offsets| <= i < out.Length0 && 0 <= k < vs ==> out[i, k] == old(out[i, k])
  {
    var values := new real[M + 2, vs]((_, _) => 0.0);
    var newValues := new real[M + 2, vs]((_, _) => 0.0);
    Splat(values, offsets, bary, inp, d, M, vs, start);
    ghost var rows := SplatRows(offsets, bary, inp, d, M, vs, start);
    if blur {
      SplatBorderZero(offsets, bary, inp, d, M, vs, start);
      values := BlurAll(values, newValues, rows, nb, d, M, vs, reverse);
    }
    Slice(out, values, Filtered(offsets, bary, inp, nb, d, M, vs, blur, reverse, start), offsets, bary, d, M, vs);
  }

  /** Runs the d+1 blur passes, each from one buffer into the other, and
      returns the buffer holding the last pass. */
  method BlurAll(values: array2<real>, newValues: array2<real>, ghost rows: seq<seq<real>>, nb: seq<seq<Neighbours>>,
                 d: nat, M: nat, vs: nat, reverse: bool)
    returns (res: array2<real>)
    requires BlurInput(rows, nb, d, M, vs, 1)
    requires values != newValues
    requires values.Length0 == newValues.Length0 == M + 2 && values.Length1 == newValues.Length1 == vs
    requires Holds(values, rows)
    requires forall r, k :: (r == 0 || r == M + 1) && 0 <= k < vs ==> newValues[r, k] == 0.0
    modifies values, newValues
    ensures res == values || res == newValues
    ensures BlurInput(rows, nb, d, M, vs, 0) && Holds(res, Blurred(rows, nb, reverse, d, M, vs, d + 1))
  {
    BlurInputUnfold(rows, nb, d, M, vs);
    StageUnfold(values, newValues, rows, nb, reverse, d, M, vs, 0);
    var src, dst := values, newValues;
    for p := 0 to d + 1
      invariant (src == values && dst == newValues) || (src == newValues && dst == values)
      invariant Stage(src, dst, rows, nb, reverse, d, M, vs, p, 1)
    {
      BlurStep(src, dst, rows, nb, reverse, d, M, vs, p);
      src, dst := dst, src;
    }
    StageUnfold(src, dst, rows, nb, reverse, d, M, vs, d + 1);
    res := src;
  }

  /** Blur pass p: writes the pass of `src` along the p-th axis in blur
      order into `dst`; `src`'s border rows are zero, ready for the next
      pass to write into. */
  method BlurStep(src: array2<real>, dst: array2<real>, ghost rows: seq<seq<real>>, nb: seq<seq<Neighbours>>,
                  reverse: bool, d: nat, M: nat, vs: nat, p: nat)
    requires p <= d && Stage(src, dst, rows, nb, reverse, d, M, vs, p, 1)
    modifies dst
    ensures Stage(dst, src, rows, nb, reverse, d, M, vs, p + 1, 1)
  {
    StageUnfold(src, dst, rows, nb, reverse, d, M, vs, p);
    ghost var cur := Blurred(rows, nb, reverse, d, M, vs, p);
    BlurredBorderZero(rows, nb, reverse, d, M, vs, p);
    assert forall k :: 0 <= k < vs ==> cur[0][k] == 0.0 && cur[M + 1][k] == 0.0;
    BlurAxis(src, dst, cur, nb[AxisOrder(d, reverse)[p]], M, vs);
    StageUnfold(dst, src, rows, nb, reverse, d, M, vs, p + 1);
  }

  /** The state before blur pass p: `src` holds the buffer after p passes,
      `dst` is a distinct buffer of the same shape whose border rows are
      zero; `depth` keeps the body out of sight until StageUnfold. */
  ghost predicate Stage(src: array2<real>, dst: array2<real>, rows: seq<seq<real>>, nb: seq<seq<Neighbours>>,
                        reverse: bool, d: nat, M: nat, vs: nat, p: nat, depth: nat)
    reads src, dst
  {
    if depth == 0 then
      src != dst && src.Length0 == dst.Length0 == M + 2 && src.Length1 == dst.Length1 == vs && p <= d + 1
      && BlurInput(rows, nb, d, M, vs, 0) && Holds(src, Blurred(rows, nb, reverse, d, M, vs, p))
      && forall r, k :: (r == 0 || r == M + 1) && 0 <= k < vs ==> dst[r, k] == 0.0
    else Stage(src, dst, rows, nb, reverse, d, M, vs, p, depth - 1)
  }

  lemma StageUnfold(src: array2<real>, dst: array2<real>, rows: seq<seq<real>>, nb: seq<seq<Neighbours>>,
                    reverse: bool, d: nat, M: nat, vs: nat, p: nat)
    ensures Stage(src, dst, rows, nb, reverse, d, M, vs, p, 1) == Stage(src, dst, rows, nb, reverse, d, M, vs, p, 0)
  {
    assert Stage(src, dst, rows, nb, reverse, d, M, vs, p, 1) == Stage(src, dst, rows, nb, reverse, d, M, vs, p, 0);
  }

  /** The splatted buffer and the neighbour table a blur starts from: an
      (M+2) x vs matrix with zero border rows, and d+1 neighbour rows;
      `depth` keeps the body out of sight until BlurInputUnfold is called. */
  ghost predicate BlurInput(rows: seq<seq<real>>, nb: seq<seq<Neighbours>>, d: nat, M: nat, vs: nat, depth: nat)
  {
    if depth == 0 then
      Shaped(rows, M + 2, vs) && NeighbourLayout(nb, d, M) && rows[0] == ZeroRow(vs) && rows[M + 1] == ZeroRow(vs)
    else BlurInput(rows, nb, d, M, vs, depth - 1)
  }

  lemma BlurInputUnfold(rows: seq<seq<real>>, nb: seq<seq<Neighbours>>, d: nat, M: nat, vs: nat)
    ensures BlurInput(rows, nb, d, M, vs, 1) == BlurInput(rows, nb, d, M, vs, 0)
  {
    assert BlurInput(rows, nb, d, M, vs, 1) == BlurInput(rows, nb, d, M, vs, 0);
  }
}
