/** The preloaded permutohedral filter: `Build` maps every sample onto the
    lattice, registers the d+1 vertices of its enclosing simplex in a vertex
    hash table and splats the sample's values into the table's value rows,
    optionally mixing each vertex with its neighbours along every axis;
    `Apply` maps query points onto the same lattice and reads the stored
    values back with the query's barycentric weights, never adding vertices. */
module Preload {
  import opened Sums
  import opened Hashing
  import opened Simplex
  import opened LatticeFilter

  /** How the post-build mixing treats a vertex whose upper neighbour is
      missing: drop that neighbour's quarter weight, or read vertex 0's row
      in its place as the source's mixing loop does. */
  datatype MixMode = DropMissing | AsWritten

  /* ---------------- vertex registration ---------------- */

  /** The vertex list after registering keys `ks` in order: a key not yet
      present gets the next id, a present key keeps its id. */
  ghost function Register(cs: seq<seq<int>>, ks: seq<seq<int>>): seq<seq<int>>
    decreases |ks|
  {
    if |ks| == 0 then cs
    else
      var c := Register(cs, ks[..|ks| - 1]);
      if ks[|ks| - 1] in c then c else c + [ks[|ks| - 1]]
  }

  /** Registration keeps the old ids, adds exactly the new keys, and keeps
      keys pairwise different. */
  lemma {:induction false} RegisterProperties(cs: seq<seq<int>>, ks: seq<seq<int>>)
    requires Distinct(cs)
    ensures |cs| <= |Register(cs, ks)| && Register(cs, ks)[..|cs|] == cs
    ensures forall k :: k in Register(cs, ks) <==> k in cs || k in ks
    ensures Distinct(Register(cs, ks))
    decreases |ks|
  {
    if |ks| > 0 {
      var init := ks[..|ks| - 1];
      RegisterProperties(cs, init);
      var c := Register(cs, init);
      var k := ks[|ks| - 1];
      assert ks == init + [k];
      if k !in c {
        assert (c + [k])[..|cs|] == c[..|cs|];
        forall a, b | 0 <= a < b < |c| + 1
          ensures (c + [k])[a] != (c + [k])[b]
        {
          if b == |c| {
            assert c[a] in c;
          }
        }
      }
    }
  }

  /** Registering a concatenation registers the parts one after the other. */
  lemma {:induction false} RegisterConcat(cs: seq<seq<int>>, a: seq<seq<int>>, b: seq<seq<int>>)
    ensures Register(cs, a + b) == Register(Register(cs, a), b)
    decreases |b|
  {
    if |b| == 0 {
      assert a + b == a;
    } else {
      assert (a + b)[..|a + b| - 1] == a + b[..|b| - 1];
      RegisterConcat(cs, a, b[..|b| - 1]);
    }
  }

  /** A key already present keeps its id when the list grows at the end. */
  lemma IdsStable(before: seq<seq<int>>, after: seq<seq<int>>, k: seq<int>)
    requires Distinct(after) && |before| <= |after| && after[..|before|] == before
    requires k in before
    ensures IndexOf(after, k) == IndexOf(before, k)
  {
    var e := IndexOf(before, k);
    assert after[e] == before[e];
    IndexOfDistinct(after, e);
  }

  /* ---------------- samples and their vertices ---------------- */

  /** The d+1 vertex keys of the simplex described by `p`, in vertex order. */
  function PointKeys(p: SimplexPoint, d: nat): (ks: seq<seq<int>>)
    requires |p.rem0| == d + 1 && |p.rank| == d + 1
    ensures |ks| == d + 1 && forall r :: 0 <= r <= d ==> |ks[r]| == d
  {
    seq(d + 1, r => VertexKey(p.rem0, p.rank, d, r))
  }

  /** The d+1 vertex keys of the simplex enclosing feature `f`. */
  function SampleKeys(f: seq<real>, scale: seq<real>, d: nat): (ks: seq<seq<int>>)
    requires |f| == d && |scale| == d
    ensures |ks| == d + 1
  {
    PointKeys(MapPoint(f, scale), d)
  }

  ghost predicate Features(features: seq<seq<real>>, d: nat)
  {
    forall i :: 0 <= i < |features| ==> |features[i]| == d
  }

  /** The vertex keys of the first `n` samples, sample by sample. */
  ghost function AllKeys(features: seq<seq<real>>, scale: seq<real>, d: nat, n: nat): (ks: seq<seq<int>>)
    requires Features(features, d) && |scale| == d && n <= |features|
    ensures |ks| == n * (d + 1)
  {
    if n == 0 then [] else AllKeys(features, scale, d, n - 1) + SampleKeys(features[n - 1], scale, d)
  }

  /** Every vertex of every built sample is in the built lattice. */
  lemma {:induction false} BuiltSamplesAreFound(features: seq<seq<real>>, scale: seq<real>, d: nat, n: nat)
    requires Features(features, d) && |scale| == d && n <= |features|
    ensures forall i, r :: 0 <= i < n && 0 <= r <= d ==>
              SampleKeys(features[i], scale, d)[r] in Register([], AllKeys(features, scale, d, n))
  {
    RegisterProperties([], AllKeys(features, scale, d, n));
    forall i, r | 0 <= i < n && 0 <= r <= d
      ensures SampleKeys(features[i], scale, d)[r] in AllKeys(features, scale, d, n)
    {
      AllKeysContains(features, scale, d, n, i, r);
    }
  }

  lemma {:induction false} AllKeysContains(features: seq<seq<real>>, scale: seq<real>, d: nat, n: nat, i: nat, r: nat)
    requires Features(features, d) && |scale| == d && i < n <= |features| && r <= d
    ensures SampleKeys(features[i], scale, d)[r] in AllKeys(features, scale, d, n)
  {
    var prev := AllKeys(features, scale, d, n - 1);
    if i == n - 1 {
      assert (prev + SampleKeys(features[i], scale, d))[|prev| + r] == SampleKeys(features[i], scale, d)[r];
    } else {
      AllKeysContains(features, scale, d, n - 1, i, r);
    }
  }

  /** The values at the first `j` of a query's vertices (keys `keys`)
      weighted by its barycentric weights; a vertex absent from the lattice
      adds nothing. */
  function QueryValue(V: seq<seq<real>>, contents: seq<seq<int>>, keys: seq<seq<int>>, w: seq<real>,
                      c: int, j: nat): real
    requires j <= |keys| && j <= |w| && |V| == |contents|
    requires 0 <= c && forall e :: 0 <= e < |V| ==> c < |V[e]|
  {
    if j == 0 then 0.0
    else QueryValue(V, contents, keys, w, c, j - 1) + VertexTerm(V, IndexOf(contents, keys[j - 1]), w[j - 1], c)
  }

  /** One vertex's share of a query: weight times its row, or nothing when
      the vertex is missing (id -1). */
  function VertexTerm(V: seq<seq<real>>, id: int, w: real, c: int): real
    requires -1 <= id < |V| && 0 <= c && forall e :: 0 <= e < |V| ==> c < |V[e]|
  {
    if id >= 0 then w * V[id][c] else 0.0
  }

  /** The lookup in `apply` as written: it tests `offset > 0`, so the vertex
      with id 0 is skipped like a missing one. */
  function VertexTermAsWritten(V: seq<seq<real>>, id: int, w: real, c: int): real
    requires -1 <= id < |V| && 0 <= c && forall e :: 0 <= e < |V| ==> c < |V[e]|
  {
    if id > 0 then w * V[id][c] else 0.0
  }

  /** The two lookups differ exactly on vertex 0: a query whose vertex 0 of
      the lattice has weight 1 and value 1 gets 1 from the intended lookup
      and 0 from the written one. */
  lemma VertexZeroSkippedAsWritten(V: seq<seq<real>>, id: int, w: real, c: int)
    requires -1 <= id < |V| && 0 <= c && forall e :: 0 <= e < |V| ==> c < |V[e]|
    ensures VertexTermAsWritten(V, id, w, c) != VertexTerm(V, id, w, c) <==> id == 0 && w * V[0][c] != 0.0
    ensures VertexTerm([[1.0]], 0, 1.0, 0) == 1.0 && VertexTermAsWritten([[1.0]], 0, 1.0, 0) == 0.0
  {
  }

  /** A query all of whose vertices are in the lattice, at rows that all hold
      `v` in column c, reads back (sum of its weights) * v, so exactly `v`
      for the weights of a mapped sample, which sum to 1. */
  lemma {:induction false} QueryOfConstant(V: seq<seq<real>>, contents: seq<seq<int>>, keys: seq<seq<int>>,
                                           w: seq<real>, c: int, v: real, j: nat)
    requires j <= |keys| && j <= |w| && |V| == |contents|
    requires 0 <= c && forall e :: 0 <= e < |V| ==> c < |V[e]| && V[e][c] == v
    requires forall r :: 0 <= r < j ==> keys[r] in contents
    ensures QueryValue(V, contents, keys, w, c, j) == Sum(w[..j]) * v
  {
    if j > 0 {
      QueryOfConstant(V, contents, keys, w, c, v, j - 1);
      assert w[..j][..j - 1] == w[..j - 1];
      assert IndexOf(contents, keys[j - 1]) >= 0;
      assert Sum(w[..j]) * v == Sum(w[..j - 1]) * v + w[j - 1] * v;
    }
  }

  /** Querying a built sample's own position in a lattice of constant rows
      returns that constant. */
  lemma QueryOfBuiltSample(V: seq<seq<real>>, features: seq<seq<real>>, scale: seq<real>, d: nat, n: nat,
                           i: nat, c: int, v: real)
    requires Features(features, d) && |scale| == d && i < n <= |features|
    requires |V| == |Register([], AllKeys(features, scale, d, n))|
    requires 0 <= c && forall e :: 0 <= e < |V| ==> c < |V[e]| && V[e][c] == v
    ensures QueryValue(V, Register([], AllKeys(features, scale, d, n)), SampleKeys(features[i], scale, d),
                       MapPoint(features[i], scale).weights, c, d + 1) == v
  {
    var w := MapPoint(features[i], scale).weights;
    BuiltSamplesAreFound(features, scale, d, n);
    QueryOfConstant(V, Register([], AllKeys(features, scale, d, n)), SampleKeys(features[i], scale, d), w, c, v, d + 1);
    MapPointProperties(features[i], scale);
    assert w[..d + 1] == w;
  }

  /* ---------------- neighbours and mixing ---------------- */

  /** The ids of the two neighbours of vertex key `key` along axis j, -1 for
      a neighbour that is not in the lattice. */
  function NeighbourIds(contents: seq<seq<int>>, key: seq<int>, j: int): (nb: Neighbours)
    ensures -1 <= nb.n1 < |contents| && -1 <= nb.n2 < |contents|
  {
    NeighbourIdsAfter(contents, key, j, 1)
  }

  /** `NeighbourIds` behind `depth` steps of recursion, so that a proof
      mentioning neighbour ids does not see the key lookups unless it asks
      for them with `NeighbourIdsAreIndices`. */
  function NeighbourIdsAfter(contents: seq<seq<int>>, key: seq<int>, j: int, depth: nat): (nb: Neighbours)
    ensures -1 <= nb.n1 < |contents| && -1 <= nb.n2 < |contents|
  {
    if depth == 0 then Neighbours(IndexOf(contents, LowerNeighbour(key, j)), IndexOf(contents, UpperNeighbour(key, j)))
    else NeighbourIdsAfter(contents, key, j, depth - 1)
  }

  lemma NeighbourIdsAreIndices(contents: seq<seq<int>>, key: seq<int>, j: int)
    ensures NeighbourIds(contents, key, j)
            == Neighbours(IndexOf(contents, LowerNeighbour(key, j)), IndexOf(contents, UpperNeighbour(key, j)))
  {
    assert NeighbourIdsAfter(contents, key, j, 1) == NeighbourIdsAfter(contents, key, j, 0);
  }

  /** The neighbour ids of every vertex along axis j. */
  ghost function AxisNeighbours(contents: seq<seq<int>>, j: int): (row: seq<Neighbours>)
    ensures |row| == |contents|
    ensures forall i :: 0 <= i < |contents| ==> -1 <= row[i].n1 < |contents| && -1 <= row[i].n2 < |contents|
  {
    seq(|contents|, i requires 0 <= i < |contents| => NeighbourIds(contents, contents[i], j))
  }

  /** The neighbour table: per axis 0..d, the neighbour ids of every vertex. */
  ghost function LatticeNeighbours(contents: seq<seq<int>>, d: nat): (nbs: seq<seq<Neighbours>>)
    ensures NeighbourLayout(nbs, d, |contents|)
  {
    seq(d + 1, j => AxisNeighbours(contents, j))
  }

  /** The neighbour table as the build leaves it when nothing fills it in:
      resizing a vector of default-constructed pairs gives every vertex the
      pair (0, 0) on every axis, that is vertex 0 on both sides. */
  function UnfilledNeighbours(d: nat, M: nat): (nbs: seq<seq<Neighbours>>)
    ensures NeighbourLayout(nbs, d, M)
    ensures forall j, i :: 0 <= j <= d && 0 <= i < M ==> nbs[j][i] == Neighbours(0, 0)
  {
    seq(d + 1, j => seq(M, i => Neighbours(0, 0)))
  }

  /** Blurring over the unfilled table: along every axis, each vertex row
      gains the whole of vertex 0's row (buffer row 1), whatever the lattice
      looks like. */
  lemma UnfilledNeighboursBlurAsWritten(src: seq<seq<real>>, d: nat, M: nat, vs: nat, j: nat)
    requires Shaped(src, M + 2, vs) && j <= d
    ensures forall r, k :: 1 <= r <= M && 0 <= k < vs ==>
              BlurPass(src, UnfilledNeighbours(d, M)[j], M, vs)[r][k] == src[r][k] + src[1][k]
  {
  }

  /** Two vertices of a one-dimensional lattice that are not neighbours: with
      the neighbour table, a pass along axis 0 leaves the empty vertex 1 at
      zero; with the unfilled table it copies vertex 0's value into it. */
  lemma UnfilledNeighboursCounterexample()
    ensures LatticeNeighbours([[0], [5]], 1)[0] == [Neighbours(-1, -1), Neighbours(-1, -1)]
    ensures BlurPass([[0.0], [1.0], [0.0], [0.0]], LatticeNeighbours([[0], [5]], 1)[0], 2, 1)[2][0] == 0.0
    ensures BlurPass([[0.0], [1.0], [0.0], [0.0]], UnfilledNeighbours(1, 2)[0], 2, 1)[2][0] == 1.0
  {
    var contents := [[0], [5]];
    NeighbourIdsAreIndices(contents, contents[0], 0);
    NeighbourIdsAreIndices(contents, contents[1], 0);
    assert LowerNeighbour([0], 0) == [1] && UpperNeighbour([0], 0) == [-1];
    assert LowerNeighbour([5], 0) == [6] && UpperNeighbour([5], 0) == [4];
  }

  /** The neighbour relation is symmetric: if b is a's lower neighbour along
      an axis, then a is b's upper neighbour along it, and conversely. */
  lemma NeighboursSymmetric(contents: seq<seq<int>>, d: nat, j: nat, a: nat, b: nat)
    requires Distinct(contents) && j <= d && a < |contents| && b < |contents|
    ensures LatticeNeighbours(contents, d)[j][a].n1 == b ==> LatticeNeighbours(contents, d)[j][b].n2 == a
    ensures LatticeNeighbours(contents, d)[j][a].n2 == b ==> LatticeNeighbours(contents, d)[j][b].n1 == a
  {
    NeighbourIdsAreIndices(contents, contents[a], j);
    NeighbourIdsAreIndices(contents, contents[b], j);
    NeighbourSymmetry(contents[a], j);
    IndexOfDistinct(contents, a);
  }

  /** Column c of vertex row e after mixing it with its two neighbours along
      one axis with weights 1/4, 1/2, 1/4. */
  function MixValue(rows: seq<seq<real>>, nb: Neighbours, mode: MixMode, e: int, c: int): real
    requires 0 <= e < |rows| && -1 <= nb.n1 < |rows| && -1 <= nb.n2 < |rows|
    requires 0 <= c && forall t :: 0 <= t < |rows| ==> c < |rows[t]|
  {
    var lower := if nb.n1 >= 0 then rows[nb.n1][c] else 0.0;
    var upper := if nb.n2 >= 0 then rows[nb.n2][c] else if mode == AsWritten then rows[0][c] else 0.0;
    0.25 * lower + 0.5 * rows[e][c] + 0.25 * upper
  }

  /** Mixing keeps a constant and drops a missing neighbour's share; the
      written mixing instead adds a quarter of vertex 0's row when the upper
      neighbour is missing. */
  lemma MixProperties(rows: seq<seq<real>>, nb: Neighbours, e: int, c: int)
    requires 0 <= e < |rows| && -1 <= nb.n1 < |rows| && -1 <= nb.n2 < |rows|
    requires 0 <= c && forall t :: 0 <= t < |rows| ==> c < |rows[t]|
    ensures nb.n1 >= 0 && nb.n2 >= 0 && rows[nb.n1][c] == rows[e][c] == rows[nb.n2][c] ==>
              MixValue(rows, nb, DropMissing, e, c) == rows[e][c]
    ensures nb.n2 == -1 ==>
              MixValue(rows, nb, DropMissing, e, c) == MixValue(rows, Neighbours(nb.n1, e), DropMissing, e, c) - 0.25 * rows[e][c]
    ensures nb.n2 == -1 ==>
              MixValue(rows, nb, AsWritten, e, c) == MixValue(rows, nb, DropMissing, e, c) + 0.25 * rows[0][c]
  {
  }

  /** A vertex with no neighbours in a two-vertex lattice whose vertex 0
      holds 1: dropping the missing neighbours leaves 1/2 of its own 0, the
      written mixing gives it 1/4. */
  lemma MixAsWrittenCounterexample()
    ensures MixValue([[1.0], [0.0]], Neighbours(-1, -1), DropMissing, 1, 0) == 0.0
    ensures MixValue([[1.0], [0.0]], Neighbours(-1, -1), AsWritten, 1, 0) == 0.25
  {
  }

  /** One mixing pass over all vertex rows. */
  ghost function MixPass(rows: seq<seq<real>>, nb: seq<Neighbours>, mode: MixMode, vd: nat): (res: seq<seq<real>>)
    requires Shaped(rows, |rows|, vd) && |nb| == |rows|
    requires forall i :: 0 <= i < |rows| ==> -1 <= nb[i].n1 < |rows| && -1 <= nb[i].n2 < |rows|
    ensures Shaped(res, |rows|, vd)
  {
    seq(|rows|, e requires 0 <= e < |rows| =>
      seq(vd, c requires 0 <= c < vd => MixValue(rows, nb[e], mode, e, c)))
  }

  /** The rows after mixing along axes 0..n-1 in turn. */
  ghost function Mixed(rows: seq<seq<real>>, nbs: seq<seq<Neighbours>>, mode: MixMode, d: nat, vd: nat, n: nat)
    : (res: seq<seq<real>>)
    requires Shaped(rows, |rows|, vd) && NeighbourLayout(nbs, d, |rows|) && n <= d + 1
    ensures Shaped(res, |rows|, vd)
  {
    if n == 0 then rows else MixPass(Mixed(rows, nbs, mode, d, vd, n - 1), nbs[n - 1], mode, vd)
  }

  /** The first `m` rows of a value array. */
  ghost function RowsOf(a: array2<real>, m: nat): (rows: seq<seq<real>>)
    reads a
    requires m <= a.Length0
    ensures Shaped(rows, m, a.Length1)
    ensures forall e, c :: 0 <= e < m && 0 <= c < a.Length1 ==> rows[e][c] == a[e, c]
  {
    seq(m, e requires 0 <= e < m reads a => seq(a.Length1, c requires 0 <= c < a.Length1 reads a => a[e, c]))
  }

  /** The value rows of the M vertices after splatting every sample. */
  ghost function Splatted(offsets: seq<seq<int>>, bary: seq<seq<real>>, inp: seq<seq<real>>, d: nat, vd: nat, M: nat)
    : (rows: seq<seq<real>>)
    requires SampleLayout(offsets, bary, d, M) && Inputs(inp, |offsets|, vd)
    ensures Shaped(rows, M, vd)
  {
    seq(M, e => seq(vd, c requires 0 <= c < vd => SplatSum(offsets, bary, inp, d, vd, e + 1, c, 0, |offsets|)))
  }

  /* ---------------- table-level steps ---------------- */

  /** Column c of row e of the value storage before a sample is splatted:
      the rows `V0` it held, and zero in rows added by growing the table. */
  ghost function Before(V0: seq<seq<real>>, e: int, c: int): real
    requires 0 <= e && 0 <= c && (e < |V0| ==> c < |V0[e]|)
  {
    if e < |V0| then V0[e][c] else 0.0
  }

  /** Value storage `a` holds its earlier rows `V0` plus what the vertices
      `off`, with the first |off| weights of `w`, of one sample with values
      `x` add to them. */
  ghost predicate Splatting(a: array2<real>, V0: seq<seq<real>>, off: seq<int>, w: seq<real>, x: seq<real>)
    reads a
  {
    && |off| <= |w| && a.Length1 == |x| && |V0| <= a.Length0 && Shaped(V0, |V0|, |x|)
    && forall e, c :: 0 <= e < a.Length0 && 0 <= c < |x| ==>
         a[e, c] == Before(V0, e, c) + Contribution(off, w, x, e + 1, c, |off|)
  }

  /** Growing the storage keeps a splat in progress: the copied rows are the
      same and the added rows are zero, where no registered vertex lies. */
  lemma SplattingGrown(a: array2<real>, b: array2<real>, V0: seq<seq<real>>, off: seq<int>, w: seq<real>, x: seq<real>)
    requires Splatting(a, V0, off, w, x)
    requires a.Length0 <= b.Length0 && b.Length1 == a.Length1
    requires forall e, c :: 0 <= e < a.Length0 && 0 <= c < |x| ==> b[e, c] == a[e, c]
    requires forall e, c :: a.Length0 <= e < b.Length0 && 0 <= c < |x| ==> b[e, c] == 0.0
    requires forall r :: 0 <= r < |off| ==> 0 <= off[r] < a.Length0
    ensures Splatting(b, V0, off, w, x)
  {
    forall o, c | a.Length0 < o <= b.Length0 && 0 <= c < |x|
      ensures Contribution(off, w, x, o, c, |off|) == 0.0
    {
      ContributionElsewhere(off, w, x, o, c, |off|);
    }
  }

  /** Adds `wt` times `x` to value row `id`: vertex `id` with the next
      weight `wt` joins the sample being splatted. */
  method AddWeighted(a: array2<real>, id: int, wt: real, x: seq<real>,
                     ghost V0: seq<seq<real>>, ghost off: seq<int>, ghost w: seq<real>)
    requires Splatting(a, V0, off, w, x) && 0 <= id < a.Length0 && |off| < |w| && wt == w[|off|]
    modifies a
    ensures Splatting(a, V0, off + [id], w, x)
  {
    for c := 0 to |x|
      invariant forall e, c' :: 0 <= e < a.Length0 && 0 <= c' < |x| ==>
                  a[e, c'] == Before(V0, e, c') + Contribution(off, w, x, e + 1, c', |off|)
                              + (if e == id && c' < c then wt * x[c'] else 0.0)
    {
      a[id, c] := a[id, c] + wt * x[c];
    }
    forall o, c | 0 < o <= a.Length0 && 0 <= c < |x|
      ensures Contribution(off + [id], w, x, o, c, |off| + 1)
              == Contribution(off, w, x, o, c, |off|) + (if o == id + 1 then wt * x[c] else 0.0)
    {
      ContributionPrefix(off + [id], w, off, w, x, o, c, |off|);
    }
  }

  /** Registers the d+1 vertices of the simplex `p` of one sample and
      splats the sample's values `x` onto them; returns the vertex ids, ranks
      and weights to store for the sample. */
  method InsertSample(t: HashTable, p: SimplexPoint, x: seq<real>, d: nat)
    returns (offRow: seq<int>, rankRow: seq<int>, baryRow: seq<real>)
    requires t.Valid() && t.keySize == d && t.capacity > 0
    requires |p.rem0| == d + 1 && |p.rank| == d + 1 && |p.weights| == d + 1 && |x| == t.valueSize
    modifies t, t.table, t.keys, t.values
    ensures t.Valid() && t.capacity >= old(t.capacity)
    ensures t.Contents == Register(old(t.Contents), PointKeys(p, d))
    ensures rankRow == p.rank && baryRow == p.weights && |offRow| == d + 1
    ensures forall r :: 0 <= r <= d ==> 0 <= offRow[r] == IndexOf(t.Contents, PointKeys(p, d)[r])
    ensures t.table == old(t.table) || fresh(t.table)
    ensures t.keys == old(t.keys) || fresh(t.keys)
    ensures t.values == old(t.values) || fresh(t.values)
    ensures Splatting(t.values, old(RowsOf(t.values, t.values.Length0)), offRow, baryRow, x)
  {
    ghost var V0 := RowsOf(t.values, t.values.Length0);
    offRow, rankRow, baryRow := [], p.rank, p.weights;
    for r := 0 to d + 1
      invariant t.Valid() && t.capacity >= old(t.capacity)
      invariant t.table == old(t.table) || fresh(t.table)
      invariant t.keys == old(t.keys) || fresh(t.keys)
      invariant t.values == old(t.values) || fresh(t.values)
      invariant |offRow| == r
      invariant t.Contents == Register(old(t.Contents), PointKeys(p, d)[..r])
      invariant forall r' :: 0 <= r' < r ==> 0 <= offRow[r'] == IndexOf(t.Contents, PointKeys(p, d)[r'])
      invariant Splatting(t.values, V0, offRow, p.weights, x)
    {
      var id := SplatVertex(t, p, d, r, x, V0, offRow, old(t.Contents));
      offRow := offRow + [id];
    }
    assert PointKeys(p, d)[..d + 1] == PointKeys(p, d);
  }

  /** Registers vertex r of the simplex `p` of the sample being splatted,
      after its vertices `off`, and adds its share, the vertex's weight times
      the sample's values `x`, to its value row. */
  method SplatVertex(t: HashTable, p: SimplexPoint, d: nat, r: nat, x: seq<real>, ghost V0: seq<seq<real>>,
                     ghost off: seq<int>, ghost cs: seq<seq<int>>)
    returns (id: int)
    requires t.Valid() && t.keySize == d && t.capacity > 0
    requires |p.rem0| == d + 1 && |p.rank| == d + 1 && |p.weights| == d + 1 && |off| == r <= d
    requires t.Contents == Register(cs, PointKeys(p, d)[..|off|])
    requires forall r :: 0 <= r < |off| ==> 0 <= off[r] == IndexOf(t.Contents, PointKeys(p, d)[r])
    requires Splatting(t.values, V0, off, p.weights, x)
    modifies t, t.table, t.keys, t.values
    ensures t.Valid() && t.capacity >= old(t.capacity)
    ensures t.Contents == Register(cs, PointKeys(p, d)[..|off| + 1])
    ensures forall r :: 0 <= r < |off| + 1 ==> 0 <= (off + [id])[r] == IndexOf(t.Contents, PointKeys(p, d)[r])
    ensures t.table == old(t.table) || fresh(t.table)
    ensures t.keys == old(t.keys) || fresh(t.keys)
    ensures t.values == old(t.values) || fresh(t.values)
    ensures Splatting(t.values, V0, off + [id], p.weights, x)
  {
    var key := ComputeKey(p.rem0, p.rank, d, r);
    id := RegisterVertex(t, key, V0, off, p.weights, x);
    AddWeighted(t.values, id, p.weights[r], x, V0, off, p.weights);
    RegisterStep(cs, old(t.Contents), t.Contents, PointKeys(p, d), |off|, off, id);
  }

  /** Registering the next key of a sample keeps the ids found so far. */
  lemma RegisterStep(cs: seq<seq<int>>, before: seq<seq<int>>, after: seq<seq<int>>, keys: seq<seq<int>>,
                     r: nat, off: seq<int>, id: int)
    requires Distinct(before) && r < |keys| && |off| == r
    requires before == Register(cs, keys[..r]) && after == Register(before, [keys[r]])
    requires forall r' :: 0 <= r' < r ==> 0 <= off[r'] == IndexOf(before, keys[r'])
    requires 0 <= id == IndexOf(after, keys[r])
    ensures after == Register(cs, keys[..r + 1])
    ensures forall r' :: 0 <= r' < r + 1 ==> 0 <= (off + [id])[r'] == IndexOf(after, keys[r'])
  {
    assert keys[..r + 1] == keys[..r] + [keys[r]];
    RegisterConcat(cs, keys[..r], [keys[r]]);
    RegisterProperties(before, [keys[r]]);
    PrefixIds(before, after);
    OffsetsExtended(before, after, keys, r, off, id);
  }

  /** The ids of a sample's first r vertices, unchanged by registering its
      vertex r, together with the id of vertex r. */
  lemma OffsetsExtended(before: seq<seq<int>>, after: seq<seq<int>>, keys: seq<seq<int>>, r: nat, off: seq<int>, id: int)
    requires forall k :: k in before ==> IndexOf(after, k) == IndexOf(before, k)
    requires r < |keys| && |off| == r
    requires forall r' :: 0 <= r' < r ==> 0 <= off[r'] == IndexOf(before, keys[r'])
    requires 0 <= id == IndexOf(after, keys[r])
    ensures forall r' :: 0 <= r' < r + 1 ==> 0 <= (off + [id])[r'] == IndexOf(after, keys[r'])
  {
  }

  /** `find(key, true)`: the id of `key`, registering it when absent. Growing
      the table on the way keeps the splat in progress (vertices `off` with
      weights `w` of a sample with values `x`) intact. */
  method RegisterVertex(t: HashTable, key: seq<int>, ghost V0: seq<seq<real>>, ghost off: seq<int>,
                        ghost w: seq<real>, ghost x: seq<real>) returns (id: int)
    requires t.Valid() && |key| == t.keySize && t.capacity > 0
    requires Splatting(t.values, V0, off, w, x)
    requires forall r :: 0 <= r < |off| ==> 0 <= off[r] < t.filled
    modifies t, t.table, t.keys
    ensures t.Valid() && t.capacity >= old(t.capacity)
    ensures t.Contents == Register(old(t.Contents), [key])
    ensures 0 <= id == IndexOf(t.Contents, key) < t.filled
    ensures t.table == old(t.table) || fresh(t.table)
    ensures t.keys == old(t.keys) || fresh(t.keys)
    ensures t.values == old(t.values) || fresh(t.values)
    ensures Splatting(t.values, V0, off, w, x)
  {
    ghost var storage := t.values;
    id := t.Find(key, true);
    assert [key][..0] == [];
    SplattingGrown(storage, t.values, V0, off, w, x);
  }

  /** The value storage holds, in every row, what splatting the first n
      samples put there. */
  ghost predicate SplatState(a: array2<real>, offs: seq<seq<int>>, bs: seq<seq<real>>, inp: seq<seq<real>>,
                             d: nat, vd: nat, n: nat)
    reads a
  {
    && n == |offs| == |bs| && Inputs(inp, n, vd) && a.Length1 == vd
    && (forall i :: 0 <= i < n ==> |offs[i]| == d + 1 && |bs[i]| == d + 1)
    && StateRows(a, offs, bs, inp, d, vd, 1)
  }

  /** Every row of `a` is the sum the samples splatted onto it; `depth`
      keeps the quantifier out of sight until StateRowsUnfold is called. */
  ghost predicate StateRows(a: array2<real>, offs: seq<seq<int>>, bs: seq<seq<real>>, inp: seq<seq<real>>,
                            d: nat, vd: nat, depth: nat)
    requires |offs| == |bs| && Inputs(inp, |offs|, vd) && a.Length1 == vd
    requires forall i :: 0 <= i < |offs| ==> |offs[i]| == d + 1 && |bs[i]| == d + 1
    reads a
  {
    if depth == 0 then
      forall e, c :: 0 <= e < a.Length0 && 0 <= c < vd ==> a[e, c] == SplatSum(offs, bs, inp, d, vd, e + 1, c, 0, |offs|)
    else StateRows(a, offs, bs, inp, d, vd, depth - 1)
  }

  lemma StateRowsUnfold(a: array2<real>, offs: seq<seq<int>>, bs: seq<seq<real>>, inp: seq<seq<real>>,
                        d: nat, vd: nat)
    requires |offs| == |bs| && Inputs(inp, |offs|, vd) && a.Length1 == vd
    requires forall i :: 0 <= i < |offs| ==> |offs[i]| == d + 1 && |bs[i]| == d + 1
    ensures StateRows(a, offs, bs, inp, d, vd, 1) == StateRows(a, offs, bs, inp, d, vd, 0)
  {
    assert StateRows(a, offs, bs, inp, d, vd, 1) == StateRows(a, offs, bs, inp, d, vd, 0);
  }

  /** A finished splat holds the splatted rows of the first m vertices. */
  lemma SplatStateRows(a: array2<real>, offs: seq<seq<int>>, bs: seq<seq<real>>, inp: seq<seq<real>>,
                       d: nat, vd: nat, m: nat)
    requires SplatState(a, offs, bs, inp, d, vd, |offs|) && m <= a.Length0 && SampleLayout(offs, bs, d, m)
    ensures forall e, c :: 0 <= e < m && 0 <= c < vd ==> a[e, c] == Splatted(offs, bs, inp, d, vd, m)[e][c]
  {
    StateRowsUnfold(a, offs, bs, inp, d, vd);
  }

  /** Splatting one more sample on top of the first i extends the state. */
  lemma SplatStateStep(V0: seq<seq<real>>, a: array2<real>, offs: seq<seq<int>>, bs: seq<seq<real>>,
                       inp: seq<seq<real>>, d: nat, vd: nat, off: seq<int>, w: seq<real>)
    requires |offs| == |bs| < |inp| && Inputs(inp, |offs| + 1, vd)
    requires forall i :: 0 <= i < |offs| ==> |offs[i]| == d + 1 && |bs[i]| == d + 1
    requires Shaped(V0, |V0|, vd)
    requires forall e, c :: 0 <= e < |V0| && 0 <= c < vd ==> V0[e][c] == SplatSum(offs, bs, inp, d, vd, e + 1, c, 0, |offs|)
    requires forall i, r :: 0 <= i < |offs| && 0 <= r <= d ==> 0 <= offs[i][r] < |V0|
    requires |off| == |w| == d + 1
    requires Splatting(a, V0, off, w, inp[|offs|])
    ensures SplatState(a, offs + [off], bs + [w], inp, d, vd, |offs| + 1)
  {
    var n := |offs|;
    forall e, c | 0 <= e < a.Length0 && 0 <= c < vd
      ensures a[e, c] == SplatSum(offs + [off], bs + [w], inp, d, vd, e + 1, c, 0, n + 1)
    {
      SplatSumPrefix(offs + [off], bs + [w], offs, bs, inp, d, vd, e + 1, c, 0, n);
      if e >= |V0| {
        SplatSumElsewhere(offs, bs, inp, d, vd, e + 1, c, 0, n);
      }
      assert (offs + [off])[n] == off && (bs + [w])[n] == w;
    }
    StateRowsUnfold(a, offs + [off], bs + [w], inp, d, vd);
  }

  /** Builds the lattice and splats the samples onto it, then, when `blur`
      is set, mixes every vertex with its neighbours along every axis. */
  method BuildFilter(features: seq<seq<real>>, inp: seq<seq<real>>, vd: nat, scale: seq<real>, d: nat,
                     blur: bool, mode: MixMode)
    returns (t: HashTable, offs: seq<seq<int>>, rks: seq<seq<int>>, bs: seq<seq<real>>, nbs: seq<seq<Neighbours>>)
    requires Features(features, d) && |scale| == d && Inputs(inp, |features|, vd)
    ensures fresh(t) && t.Valid() && t.keySize == d && t.valueSize == vd
    ensures t.Contents == Register([], AllKeys(features, scale, d, |features|))
    ensures |offs| == |features| && |rks| == |features| && SampleLayout(offs, bs, d, t.filled)
    ensures forall i, r :: 0 <= i < |features| && 0 <= r <= d ==>
              offs[i][r] == IndexOf(t.Contents, SampleKeys(features[i], scale, d)[r])
    ensures forall i :: 0 <= i < |features| ==>
              rks[i] == MapPoint(features[i], scale).rank && bs[i] == MapPoint(features[i], scale).weights
    ensures blur ==> nbs == LatticeNeighbours(t.Contents, d) && NeighbourLayout(nbs, d, t.filled)
    ensures forall e, c :: 0 <= e < t.filled && 0 <= c < vd ==>
              t.values[e, c] == (if blur then Mixed(Splatted(offs, bs, inp, d, vd, t.filled), nbs, mode, d, vd, d + 1)
                                 else Splatted(offs, bs, inp, d, vd, t.filled))[e][c]
  {
    t, offs, rks, bs := BuildLattice(features, inp, vd, scale, d);
    nbs := [];
    ghost var S := Splatted(offs, bs, inp, d, vd, t.filled);
    SplatStateRows(t.values, offs, bs, inp, d, vd, t.filled);
    if blur {
      nbs := MixLattice(t, d, mode, S);
    }
  }

  /** Maps every sample onto the lattice, registers the vertices of its
      simplex in a fresh table and splats its values onto them. */
  method BuildLattice(features: seq<seq<real>>, inp: seq<seq<real>>, vd: nat, scale: seq<real>, d: nat)
    returns (t: HashTable, offs: seq<seq<int>>, rks: seq<seq<int>>, bs: seq<seq<real>>)
    requires Features(features, d) && |scale| == d && Inputs(inp, |features|, vd)
    ensures fresh(t) && fresh(t.table) && fresh(t.keys) && fresh(t.values)
    ensures t.Valid() && t.keySize == d && t.valueSize == vd && t.capacity >= 2 * |features|
    ensures t.Contents == Register([], AllKeys(features, scale, d, |features|))
    ensures |offs| == |features| && |rks| == |features| && |bs| == |features|
    ensures forall i :: 0 <= i < |features| ==> |offs[i]| == d + 1 && |bs[i]| == d + 1
    ensures forall i, r :: 0 <= i < |features| && 0 <= r <= d ==>
              0 <= offs[i][r] == IndexOf(t.Contents, SampleKeys(features[i], scale, d)[r])
    ensures forall i :: 0 <= i < |features| ==>
              rks[i] == MapPoint(features[i], scale).rank && bs[i] == MapPoint(features[i], scale).weights
    ensures SplatState(t.values, offs, bs, inp, d, vd, |features|)
  {
    var n := |features|;
    t := new HashTable(d, vd, n);
    offs, rks, bs := [], [], [];
    StateRowsUnfold(t.values, offs, bs, inp, d, vd);
    for i := 0 to n
      invariant fresh(t) && fresh(t.table) && fresh(t.keys) && fresh(t.values)
      invariant t.Valid() && t.keySize == d && t.valueSize == vd && t.capacity >= 2 * n
      invariant |rks| == i && SplatState(t.values, offs, bs, inp, d, vd, i)
      invariant t.Contents == Register([], AllKeys(features, scale, d, i))
      invariant forall i', r :: 0 <= i' < i && 0 <= r <= d ==>
                  0 <= offs[i'][r] == IndexOf(t.Contents, SampleKeys(features[i'], scale, d)[r])
      invariant forall i' :: 0 <= i' < i ==>
                  rks[i'] == MapPoint(features[i'], scale).rank && bs[i'] == MapPoint(features[i'], scale).weights
    {
      var offRow, rankRow, baryRow := SplatSample(t, features, inp, vd, scale, d, i, offs, bs);
      MappedStep(features, scale, d, i, rks, bs, rankRow, baryRow);
      offs, rks, bs := offs + [offRow], rks + [rankRow], bs + [baryRow];
    }
  }

  /** The ranks and weights of samples 0..i, one row more than of 0..i-1. */
  lemma MappedStep(features: seq<seq<real>>, scale: seq<real>, d: nat, i: nat, rks: seq<seq<int>>,
                   bs: seq<seq<real>>, rankRow: seq<int>, baryRow: seq<real>)
    requires Features(features, d) && |scale| == d && i < |features| && |rks| == |bs| == i
    requires forall i' :: 0 <= i' < i ==>
               rks[i'] == MapPoint(features[i'], scale).rank && bs[i'] == MapPoint(features[i'], scale).weights
    requires rankRow == MapPoint(features[i], scale).rank && baryRow == MapPoint(features[i], scale).weights
    ensures forall i' :: 0 <= i' < i + 1 ==>
              (rks + [rankRow])[i'] == MapPoint(features[i'], scale).rank
              && (bs + [baryRow])[i'] == MapPoint(features[i'], scale).weights
  {
    forall i' | 0 <= i' < i + 1
      ensures (rks + [rankRow])[i'] == MapPoint(features[i'], scale).rank
              && (bs + [baryRow])[i'] == MapPoint(features[i'], scale).weights
    {
      if i' < i {
        assert (rks + [rankRow])[i'] == rks[i'] && (bs + [baryRow])[i'] == bs[i'];
      }
    }
  }

  /** Maps sample i onto the lattice, registers the vertices of its simplex
      and splats its values onto them, on top of samples 0..i-1. */
  method SplatSample(t: HashTable, features: seq<seq<real>>, inp: seq<seq<real>>, vd: nat, scale: seq<real>,
                     d: nat, i: nat, ghost offs: seq<seq<int>>, ghost bs: seq<seq<real>>)
    returns (offRow: seq<int>, rankRow: seq<int>, baryRow: seq<real>)
    requires Features(features, d) && |scale| == d && i < |features| && Inputs(inp, |features|, vd)
    requires t.Valid() && t.keySize == d && t.valueSize == vd && t.capacity > 0
    requires |offs| == i && forall i' :: 0 <= i' < i ==> |offs[i']| == d + 1
    requires t.Contents == Register([], AllKeys(features, scale, d, i))
    requires forall i', r :: 0 <= i' < i && 0 <= r <= d ==>
               0 <= offs[i'][r] == IndexOf(t.Contents, SampleKeys(features[i'], scale, d)[r])
    requires SplatState(t.values, offs, bs, inp, d, vd, i)
    modifies t, t.table, t.keys, t.values
    ensures t.Valid() && t.capacity >= old(t.capacity)
    ensures t.table == old(t.table) || fresh(t.table)
    ensures t.keys == old(t.keys) || fresh(t.keys)
    ensures t.values == old(t.values) || fresh(t.values)
    ensures t.Contents == Register([], AllKeys(features, scale, d, i + 1))
    ensures |offRow| == d + 1 && |baryRow| == d + 1
    ensures forall i', r :: 0 <= i' < i + 1 && 0 <= r <= d ==>
              0 <= (offs + [offRow])[i'][r] == IndexOf(t.Contents, SampleKeys(features[i'], scale, d)[r])
    ensures rankRow == MapPoint(features[i], scale).rank && baryRow == MapPoint(features[i], scale).weights
    ensures SplatState(t.values, offs + [offRow], bs + [baryRow], inp, d, vd, i + 1)
  {
    ghost var before := t.Contents;
    ghost var V0 := RowsOf(t.values, t.values.Length0);
    StateRowsUnfold(t.values, offs, bs, inp, d, vd);
    var p := MapSample(features[i], scale);
    offRow, rankRow, baryRow := InsertSample(t, p, inp[i], d);
    SplatStateStep(V0, t.values, offs, bs, inp, d, vd, offRow, baryRow);
    SampleStep(features, scale, d, i, before, t.Contents, offs, p, offRow);
  }

  /** Registering the vertices of sample i extends the lattice to the first
      i+1 samples and keeps the ids of the earlier samples' vertices. */
  lemma SampleStep(features: seq<seq<real>>, scale: seq<real>, d: nat, i: nat, before: seq<seq<int>>,
                   after: seq<seq<int>>, offs: seq<seq<int>>, p: SimplexPoint, offRow: seq<int>)
    requires Features(features, d) && |scale| == d && i < |features| && p == MapPoint(features[i], scale)
    requires before == Register([], AllKeys(features, scale, d, i)) && Distinct(before)
    requires after == Register(before, PointKeys(p, d))
    requires |offs| == i && forall i' :: 0 <= i' < i ==> |offs[i']| == d + 1
    requires forall i', r :: 0 <= i' < i && 0 <= r <= d ==> 0 <= offs[i'][r] == IndexOf(before, SampleKeys(features[i'], scale, d)[r])
    requires |offRow| == d + 1 && forall r :: 0 <= r <= d ==> 0 <= offRow[r] == IndexOf(after, PointKeys(p, d)[r])
    ensures after == Register([], AllKeys(features, scale, d, i + 1))
    ensures forall i', r :: 0 <= i' < i + 1 && 0 <= r <= d ==>
              0 <= (offs + [offRow])[i'][r] == IndexOf(after, SampleKeys(features[i'], scale, d)[r])
  {
    assert PointKeys(p, d) == SampleKeys(features[i], scale, d);
    RegisterConcat([], AllKeys(features, scale, d, i), SampleKeys(features[i], scale, d));
    RegisterProperties(before, SampleKeys(features[i], scale, d));
    PrefixIds(before, after);
    IdsKept(features, scale, d, i, before, after, offs, offRow);
  }

  /** Ids found in `before` stay valid in any extension `after` of it. */
  lemma PrefixIds(before: seq<seq<int>>, after: seq<seq<int>>)
    requires Distinct(after) && |before| <= |after| && after[..|before|] == before
    ensures forall k :: k in before ==> IndexOf(after, k) == IndexOf(before, k)
  {
    forall k | k in before
      ensures IndexOf(after, k) == IndexOf(before, k)
    {
      IdsStable(before, after, k);
    }
  }

  /** The ids of earlier samples' vertices, unchanged by registering more,
      together with the ids of the newest sample's vertices. */
  lemma IdsKept(features: seq<seq<real>>, scale: seq<real>, d: nat, i: nat, before: seq<seq<int>>,
                after: seq<seq<int>>, offs: seq<seq<int>>, offRow: seq<int>)
    requires Features(features, d) && |scale| == d && i < |features|
    requires forall k :: k in before ==> IndexOf(after, k) == IndexOf(before, k)
    requires |offs| == i && forall i' :: 0 <= i' < i ==> |offs[i']| == d + 1
    requires forall i', r :: 0 <= i' < i && 0 <= r <= d ==> 0 <= offs[i'][r] == IndexOf(before, SampleKeys(features[i'], scale, d)[r])
    requires |offRow| == d + 1 && forall r :: 0 <= r <= d ==> 0 <= offRow[r] == IndexOf(after, SampleKeys(features[i], scale, d)[r])
    ensures forall i', r :: 0 <= i' < i + 1 && 0 <= r <= d ==>
              0 <= (offs + [offRow])[i'][r] == IndexOf(after, SampleKeys(features[i'], scale, d)[r])
  {
  }

  /** `find(key, false)`: the id of `key`, or -1 when it is not a vertex.
      The table may grow on the way, but keeps its vertices and their value
      rows. */
  method LookupVertex(t: HashTable, key: seq<int>) returns (id: int)
    requires t.Valid() && |key| == t.keySize && t.capacity > 0
    modifies t, t.table, t.keys
    ensures t.Valid() && t.Contents == old(t.Contents) && t.capacity > 0
    ensures id == IndexOf(t.Contents, key)
    ensures t.table == old(t.table) || fresh(t.table)
    ensures t.keys == old(t.keys) || fresh(t.keys)
    ensures t.values == old(t.values) || fresh(t.values)
    ensures forall e, c :: 0 <= e < t.filled && 0 <= c < t.valueSize ==> t.values[e, c] == old(t.values[e, c])
  {
    id := t.Find(key, false);
  }

  lemma AxisDone(C: seq<seq<int>>, j: int, row: seq<Neighbours>)
    requires |row| == |C| && forall i :: 0 <= i < |C| ==> row[i] == NeighbourIds(C, C[i], j)
    ensures row == AxisNeighbours(C, j)
  {
  }

  /** Looks up the ids of the two neighbours of vertex key `key` along axis j. */
  method LookupPair(t: HashTable, key: seq<int>, j: int) returns (nb: Neighbours)
    requires t.Valid() && |key| == t.keySize && t.capacity > 0
    modifies t, t.table, t.keys
    ensures t.Valid() && t.Contents == old(t.Contents) && t.capacity > 0
    ensures nb == NeighbourIds(t.Contents, key, j)
    ensures t.table == old(t.table) || fresh(t.table)
    ensures t.keys == old(t.keys) || fresh(t.keys)
    ensures t.values == old(t.values) || fresh(t.values)
    ensures forall e, c :: 0 <= e < t.filled && 0 <= c < t.valueSize ==> t.values[e, c] == old(t.values[e, c])
  {
    var n1, n2 := NeighbourKeys(key, j);
    var a := LookupVertex(t, n1);
    var b := LookupVertex(t, n2);
    nb := Neighbours(a, b);
    NeighbourIdsAreIndices(t.Contents, key, j);
  }

  /** Looks up the ids of the two neighbours of every vertex along axis j,
      without inserting them. */
  method LookupAxis(t: HashTable, j: int) returns (row: seq<Neighbours>)
    requires t.Valid()
    modifies t, t.table, t.keys
    ensures t.Valid() && t.Contents == old(t.Contents)
    ensures row == AxisNeighbours(t.Contents, j)
    ensures t.table == old(t.table) || fresh(t.table)
    ensures t.keys == old(t.keys) || fresh(t.keys)
    ensures t.values == old(t.values) || fresh(t.values)
    ensures forall e, c :: 0 <= e < t.filled && 0 <= c < t.valueSize ==> t.values[e, c] == old(t.values[e, c])
  {
    ghost var C := t.Contents;
    row := [];
    for i := 0 to t.filled
      invariant t.Valid() && t.Contents == C
      invariant |row| == i && forall i' :: 0 <= i' < i ==> row[i'] == NeighbourIds(C, C[i'], j)
      invariant t.table == old(t.table) || fresh(t.table)
      invariant t.keys == old(t.keys) || fresh(t.keys)
      invariant t.values == old(t.values) || fresh(t.values)
      invariant forall e, c :: 0 <= e < t.filled && 0 <= c < t.valueSize ==> t.values[e, c] == old(t.values[e, c])
    {
      var key := t.GetKey(i);
      var nb := LookupPair(t, key, j);
      row := row + [nb];
    }
    AxisDone(C, j, row);
  }

  /** Looks up the neighbour table: for every axis 0..d and every vertex,
      the ids of its two neighbours. */
  method LookupNeighbours(t: HashTable, d: nat) returns (nbs: seq<seq<Neighbours>>)
    requires t.Valid()
    modifies t, t.table, t.keys
    ensures t.Valid() && t.Contents == old(t.Contents)
    ensures nbs == LatticeNeighbours(t.Contents, d)
    ensures t.values == old(t.values) || fresh(t.values)
    ensures forall e, c :: 0 <= e < t.filled && 0 <= c < t.valueSize ==> t.values[e, c] == old(t.values[e, c])
  {
    ghost var C := t.Contents;
    nbs := [];
    for j := 0 to d + 1
      invariant t.Valid() && t.Contents == C
      invariant nbs == LatticeNeighbours(C, d)[..j]
      invariant t.table == old(t.table) || fresh(t.table)
      invariant t.keys == old(t.keys) || fresh(t.keys)
      invariant t.values == old(t.values) || fresh(t.values)
      invariant forall e, c :: 0 <= e < t.filled && 0 <= c < t.valueSize ==> t.values[e, c] == old(t.values[e, c])
    {
      var row := LookupAxis(t, j);
      nbs := nbs + [row];
    }
    assert LatticeNeighbours(C, d)[..d + 1] == LatticeNeighbours(C, d);
  }

  /** Writes one mixing pass of the first |rows| rows of `src` into `dst`. */
  method MixAxis(src: array2<real>, dst: array2<real>, ghost rows: seq<seq<real>>, nb: seq<Neighbours>,
                 mode: MixMode, vd: nat)
    requires src != dst && src.Length1 == dst.Length1 == vd
    requires |rows| <= src.Length0 && |rows| <= dst.Length0 && |nb| == |rows|
    requires Shaped(rows, |rows|, vd)
    requires forall e, c :: 0 <= e < |rows| && 0 <= c < vd ==> src[e, c] == rows[e][c]
    requires forall i :: 0 <= i < |rows| ==> -1 <= nb[i].n1 < |rows| && -1 <= nb[i].n2 < |rows|
    modifies dst
    ensures forall e, c :: 0 <= e < |rows| && 0 <= c < vd ==> dst[e, c] == MixPass(rows, nb, mode, vd)[e][c]
  {
    for i := 0 to |nb|
      invariant forall e, c :: 0 <= e < i && 0 <= c < vd ==> dst[e, c] == MixValue(rows, nb[e], mode, e, c)
    {
      var n1, n2 := nb[i].n1, nb[i].n2;
      for k := 0 to vd
        invariant forall e, c :: 0 <= e < i && 0 <= c < vd ==> dst[e, c] == MixValue(rows, nb[e], mode, e, c)
        invariant forall c :: 0 <= c < k ==> dst[i, c] == MixValue(rows, nb[i], mode, i, c)
      {
        var lower := if n1 >= 0 then src[n1, k] else 0.0;
        var upper := if n2 >= 0 then src[n2, k] else if mode == AsWritten then src[0, k] else 0.0;
        dst[i, k] := 0.25 * lower + 0.5 * src[i, k] + 0.25 * upper;
      }
    }
  }

  /** Mixes the first m rows of `a` along axes 0..d in turn, writing each
      pass into the other buffer and swapping the two; returns the buffer
      that holds the last pass. */
  method MixAxes(a: array2<real>, b: array2<real>, ghost S: seq<seq<real>>, nbs: seq<seq<Neighbours>>,
                 mode: MixMode, d: nat, vd: nat, m: nat) returns (res: array2<real>)
    requires a != b && m <= a.Length0 == b.Length0 && a.Length1 == b.Length1 == vd
    requires Shaped(S, m, vd) && NeighbourLayout(nbs, d, m)
    requires forall e, c :: 0 <= e < m && 0 <= c < vd ==> a[e, c] == S[e][c]
    modifies a, b
    ensures res == a || res == b
    ensures forall e, c :: 0 <= e < m && 0 <= c < vd ==> res[e, c] == Mixed(S, nbs, mode, d, vd, d + 1)[e][c]
  {
    var cur, other := a, b;
    for j := 0 to d + 1
      invariant (cur == a && other == b) || (cur == b && other == a)
      invariant forall e, c :: 0 <= e < m && 0 <= c < vd ==> cur[e, c] == Mixed(S, nbs, mode, d, vd, j)[e][c]
    {
      MixAxis(cur, other, Mixed(S, nbs, mode, d, vd, j), nbs[j], mode, vd);
      cur, other := other, cur;
    }
    res := cur;
  }

  /** The mixing after a build: looks up the neighbour table, mixes every
      vertex row with its neighbours along axes 0..d in turn, and installs
      the buffer holding the result as the table's values. */
  method MixLattice(t: HashTable, d: nat, mode: MixMode, ghost S: seq<seq<real>>) returns (nbs: seq<seq<Neighbours>>)
    requires t.Valid() && Shaped(S, t.filled, t.valueSize)
    requires forall e, c :: 0 <= e < t.filled && 0 <= c < t.valueSize ==> t.values[e, c] == S[e][c]
    modifies t, t.table, t.keys, t.values
    ensures t.Valid() && t.Contents == old(t.Contents)
    ensures nbs == LatticeNeighbours(t.Contents, d)
    ensures forall e, c :: 0 <= e < t.filled && 0 <= c < t.valueSize ==>
              t.values[e, c] == Mixed(S, nbs, mode, d, t.valueSize, d + 1)[e][c]
  {
    nbs := LookupNeighbours(t, d);
    var other := new real[t.values.Length0, t.valueSize]((e, c) => 0.0);
    var res := MixAxes(t.values, other, S, nbs, mode, d, t.valueSize, t.filled);
    if res != t.values {
      t.ReplaceValues(res);
    }
  }

  /* ---------------- the filter ---------------- */

  /** The filter state: per-sample vertex ids, ranks and weights of the last
      build or apply, the neighbour table, and the vertex hash table. The
      scale vectors stand for the per-axis factors the source derives with
      `sqrt` from d, one for the blurred and one for the plain filter. */
  class PreloadFilter {
    const d: nat
    const blurScale: seq<real>
    const plainScale: seq<real>
    var N: nat
    var M: nat
    var withBlur: bool
    var offsets: seq<seq<int>>
    var ranks: seq<seq<int>>
    var barycentric: seq<seq<real>>
    var neighbours: seq<seq<Neighbours>>
    var table: HashTable

    /** The scale vectors fit the dimension. */
    predicate Scales()
    {
      |blurScale| == d && |plainScale| == d
    }

    function Scale(blur: bool): (s: seq<real>)
      requires Scales()
      ensures |s| == d
    {
      if blur then blurScale else plainScale
    }

    /** The per-sample arrays cover the N samples, every vertex id is one of
        the M vertices, and the blur has a neighbour table. */
    ghost predicate Ready()
      reads this
    {
      && |offsets| == N
      && SampleLayout(offsets, barycentric, d, M)
      && (withBlur ==> NeighbourLayout(neighbours, d, M))
    }

    /** The value rows a build stores: the splatted rows, mixed along every
        axis when blurring. */
    ghost function BuiltValues(inp: seq<seq<real>>, vd: nat, mode: MixMode): (rows: seq<seq<real>>)
      reads this
      requires Ready() && Inputs(inp, N, vd)
      ensures Shaped(rows, M, vd)
    {
      var s := Splatted(offsets, barycentric, inp, d, vd, M);
      if withBlur then Mixed(s, neighbours, mode, d, vd, d + 1) else s
    }

    constructor (N: nat, M: nat, d: nat, withBlur: bool, blurScale: seq<real>, plainScale: seq<real>)
      requires |blurScale| == d && |plainScale| == d
      ensures Scales() && this.d == d && this.N == N && this.M == M && this.withBlur == withBlur
      ensures fresh(table) && table.Valid() && table.keySize == d && table.valueSize == M
      ensures table.capacity == 2 * N && table.Contents == []
      ensures offsets == [] && ranks == [] && barycentric == [] && neighbours == []
    {
      this.d := d;
      this.blurScale := blurScale;
      this.plainScale := plainScale;
      this.N := N;
      this.M := M;
      this.withBlur := withBlur;
      offsets, ranks, barycentric, neighbours := [], [], [], [];
      table := new HashTable(d, M, N);
    }

    /** The number of lattice vertices. */
    function GetLatticeSize(): (m: nat)
      reads this, table, table.keys, table.table
      ensures m == M
      ensures table.Valid() && M == |table.Contents| ==> m == table.filled
    {
      M
    }

    /** Builds the lattice for `features` (N samples of d coordinates) and
        splats `inp` (N samples of vd values) onto it, mixing each vertex
        with its neighbours along every axis when `blur` is set. The new
        table replaces the filter's table. */
    method Build(features: seq<seq<real>>, inp: seq<seq<real>>, vd: nat, blur: bool, mode: MixMode)
      requires Scales() && Features(features, d) && Inputs(inp, |features|, vd)
      modifies this
      ensures N == |features| && withBlur == blur && fresh(table)
      ensures table.Valid() && table.keySize == d && table.valueSize == vd
      ensures table.Contents == Register([], AllKeys(features, Scale(blur), d, N)) && M == |table.Contents|
      ensures Ready()
      ensures forall i, r :: 0 <= i < N && 0 <= r <= d ==>
                offsets[i][r] == IndexOf(table.Contents, SampleKeys(features[i], Scale(blur), d)[r])
      ensures |ranks| == N && forall i :: 0 <= i < N ==>
                ranks[i] == MapPoint(features[i], Scale(blur)).rank
                && barycentric[i] == MapPoint(features[i], Scale(blur)).weights
      ensures blur ==> neighbours == LatticeNeighbours(table.Contents, d)
      ensures !blur ==> neighbours == old(neighbours)
      ensures forall e, c :: 0 <= e < M && 0 <= c < vd ==> table.values[e, c] == BuiltValues(inp, vd, mode)[e][c]
    {
      var t, offs, rks, bs, nbs := BuildFilter(features, inp, vd, Scale(blur), d, blur, mode);
      Install(t, offs, rks, bs, nbs, blur);
    }

    /** Stores a built lattice: its table, its per-sample ids, ranks and
        weights, and, when blurring, its neighbour table. */
    method Install(t: HashTable, offs: seq<seq<int>>, rks: seq<seq<int>>, bs: seq<seq<real>>,
                   nbs: seq<seq<Neighbours>>, blur: bool)
      requires SampleLayout(offs, bs, d, t.filled) && (blur ==> NeighbourLayout(nbs, d, t.filled))
      modifies this
      ensures Ready()
      ensures table == t && N == |offs| && M == t.filled && withBlur == blur
      ensures offsets == offs && ranks == rks && barycentric == bs
      ensures neighbours == if blur then nbs else old(neighbours)
    {
      N, M, withBlur := |offs|, t.filled, blur;
      offsets, ranks, barycentric := offs, rks, bs;
      table := t;
      if blur {
        neighbours := nbs;
      }
    }

    /** Filters `inp` (N samples of vs values) over the stored lattice:
        splats samples start..N-1, blurs along every axis (in reverse axis
        order when `reverse`) when the filter blurs, and slices the N
        samples' rows into `out`. */
    method Compute(out: array2<real>, inp: seq<seq<real>>, vs: nat, reverse: bool, start: nat)
      requires Ready() && Inputs(inp, N, vs)
      requires out.Length0 >= N && out.Length1 == vs
      modifies out
      ensures forall i, k :: 0 <= i < N && 0 <= k < vs ==>
                out[i, k] == SliceSum(Filtered(offsets, barycentric, inp, neighbours, d, M, vs, withBlur, reverse, start),
                                      offsets[i], barycentric[i], k, Alpha(d), d + 1)
      ensures forall i, k :: N <= i < out.Length0 && 0 <= k < vs ==> out[i, k] == old(out[i, k])
    {
      LatticeFilter.Compute(out, inp, offsets, barycentric, neighbours, d, M, vs, withBlur, reverse, start);
    }

    /** Maps the query points `features` onto the built lattice and writes,
        for each, the weighted values of its vertices to its row of `out`. */
    method Apply(out: array2<real>, features: seq<seq<real>>)
      requires Scales() && Features(features, d)
      requires table.Valid() && table.keySize == d
      requires |features| > 0 ==> table.capacity > 0
      requires out != table.values && out.Length0 >= |features| && out.Length1 == table.valueSize
      modifies this, table, table.table, table.keys, out
      ensures table.Valid() && table == old(table) && table.Contents == old(table.Contents) && M == old(M)
      ensures N == |features| && withBlur == old(withBlur) && neighbours == old(neighbours)
      ensures offsets == Zeros(N, d) && barycentric == RealZeros(N, d) && ranks == Resized(old(ranks), N, d)
      ensures forall q, c :: 0 <= q < N && 0 <= c < out.Length1 ==>
                out[q, c] == QueryOf(old(RowsOf(table.values, table.filled)), table.Contents, Scale(withBlur), d, features[q], c)
      ensures forall q, c :: N <= q < out.Length0 && 0 <= c < out.Length1 ==> out[q, c] == old(out[q, c])
      ensures forall e, c :: 0 <= e < table.filled && 0 <= c < table.valueSize ==> table.values[e, c] == old(table.values[e, c])
    {
      ZeroRows(out, |features|);
      ResetSamples(|features|);
      QueryAll(table, out, features, Scale(withBlur), d);
    }

    /** Resizes the per-sample arrays to `n` query samples: ids and weights
        are zeroed, rank rows kept where they exist. */
    method ResetSamples(n: nat)
      modifies this
      ensures N == n && offsets == Zeros(n, d) && barycentric == RealZeros(n, d) && ranks == Resized(old(ranks), n, d)
      ensures table == old(table) && M == old(M) && withBlur == old(withBlur) && neighbours == old(neighbours)
    {
      N := n;
      offsets, barycentric, ranks := Zeros(n, d), RealZeros(n, d), Resized(ranks, n, d);
    }
  }

  /** `n` rows of d+1 zero ids. */
  function Zeros(n: nat, d: nat): (z: seq<seq<int>>)
    ensures |z| == n && forall i :: 0 <= i < n ==> z[i] == seq(d + 1, r => 0)
  {
    seq(n, i => seq(d + 1, r => 0))
  }

  /** `n` rows of d+1 zero weights. */
  function RealZeros(n: nat, d: nat): (z: seq<seq<real>>)
    ensures |z| == n && forall i :: 0 <= i < n ==> z[i] == seq(d + 1, r => 0.0)
  {
    seq(n, i => seq(d + 1, r => 0.0))
  }

  /** The rank rows resized to `n` samples: existing rows are kept, new rows
      are zero. */
  function Resized(rs: seq<seq<int>>, n: nat, d: nat): (z: seq<seq<int>>)
    ensures |z| == n
    ensures forall i :: 0 <= i < n && i < |rs| ==> z[i] == rs[i]
    ensures forall i :: |rs| <= i < n ==> z[i] == seq(d + 1, r => 0)
  {
    seq(n, i requires 0 <= i < n => if i < |rs| then rs[i] else seq(d + 1, r => 0))
  }

  /** Zeroes the first `n` rows of `out`. */
  method ZeroRows(out: array2<real>, n: nat)
    requires n <= out.Length0
    modifies out
    ensures forall q, c :: 0 <= q < out.Length0 && 0 <= c < out.Length1 ==>
              out[q, c] == if q < n then 0.0 else old(out[q, c])
  {
    for q := 0 to n
      invariant forall q', c :: 0 <= q' < out.Length0 && 0 <= c < out.Length1 ==>
                  out[q', c] == if q' < q then 0.0 else old(out[q', c])
    {
      for c := 0 to out.Length1
        invariant forall q', c' :: 0 <= q' < out.Length0 && 0 <= c' < out.Length1 ==>
                    out[q', c'] == if q' < q || (q' == q && c' < c) then 0.0 else old(out[q', c'])
      {
        out[q, c] := 0.0;
      }
    }
  }

  /** Writes, for every query point, the weighted values of its vertices to
      its zeroed row of `out`; the table's vertices and values stay as
      they are. */
  method QueryAll(t: HashTable, out: array2<real>, features: seq<seq<real>>, scale: seq<real>, d: nat)
    requires t.Valid() && t.keySize == d && Features(features, d) && |scale| == d
    requires |features| > 0 ==> t.capacity > 0
    requires out != t.values && out.Length0 >= |features| && out.Length1 == t.valueSize
    requires forall q, c :: 0 <= q < |features| && 0 <= c < out.Length1 ==> out[q, c] == 0.0
    modifies t, t.table, t.keys, out
    ensures t.Valid() && t.Contents == old(t.Contents)
    ensures forall q, c :: 0 <= q < |features| && 0 <= c < out.Length1 ==>
              out[q, c] == QueryOf(old(RowsOf(t.values, t.filled)), t.Contents, scale, d, features[q], c)
    ensures forall q, c :: |features| <= q < out.Length0 && 0 <= c < out.Length1 ==> out[q, c] == old(out[q, c])
    ensures forall e, c :: 0 <= e < t.filled && 0 <= c < t.valueSize ==> t.values[e, c] == old(t.values[e, c])
  {
    ghost var V := RowsOf(t.values, t.filled);
    ghost var C := t.Contents;
    HoldsRowsUnfold(t.values, V);
    for q := 0 to |features|
      invariant t.Valid() && t.Contents == C && Shaped(V, t.filled, out.Length1)
      invariant |features| > 0 ==> t.capacity > 0
      invariant out != t.values && t.values.Length1 == out.Length1
      invariant HoldsRows(t.values, V, 1)
      invariant t.table == old(t.table) || fresh(t.table)
      invariant t.keys == old(t.keys) || fresh(t.keys)
      invariant forall q', c :: 0 <= q' < q && 0 <= c < out.Length1 ==> out[q', c] == QueryOf(V, C, scale, d, features[q'], c)
      invariant forall q', c :: q <= q' < out.Length0 && 0 <= c < out.Length1 ==>
                  out[q', c] == if q' < |features| then 0.0 else old(out[q', c])
    {
      QuerySample(t, out, q, features[q], scale, d, V);
    }
    HoldsRowsUnfold(t.values, V);
  }

  /** The first |V| rows of `a` hold V; `depth` keeps the quantifier out of
      sight until HoldsRowsUnfold is called. */
  ghost predicate HoldsRows(a: array2<real>, V: seq<seq<real>>, depth: nat)
    reads a
  {
    if depth == 0 then
      |V| <= a.Length0 && forall e, c :: 0 <= e < |V| && 0 <= c < |V[e]| && c < a.Length1 ==> a[e, c] == V[e][c]
    else HoldsRows(a, V, depth - 1)
  }

  lemma HoldsRowsUnfold(a: array2<real>, V: seq<seq<real>>)
    ensures HoldsRows(a, V, 1) == HoldsRows(a, V, 0)
  {
    assert HoldsRows(a, V, 1) == HoldsRows(a, V, 0);
  }

  /** The output value in column c of one query point `f`: its vertices'
      values `V` (vertex list `C`) weighted by its barycentric weights. */
  ghost function QueryOf(V: seq<seq<real>>, C: seq<seq<int>>, scale: seq<real>, d: nat, f: seq<real>, c: int): real
    requires |f| == d && |scale| == d && |V| == |C|
    requires 0 <= c && forall e :: 0 <= e < |V| ==> c < |V[e]|
  {
    QueryValue(V, C, SampleKeys(f, scale, d), MapPoint(f, scale).weights, c, d + 1)
  }

  /** Maps query point `f` onto the lattice and writes the weighted values of
      its vertices to the zeroed output row `q`. */
  method QuerySample(t: HashTable, out: array2<real>, q: nat, f: seq<real>, scale: seq<real>, d: nat,
                     ghost V: seq<seq<real>>)
    requires t.Valid() && t.keySize == d && t.capacity > 0 && Shaped(V, t.filled, out.Length1)
    requires |f| == d && |scale| == d
    requires out != t.values && q < out.Length0 && t.values.Length1 == out.Length1
    requires HoldsRows(t.values, V, 1)
    requires forall c :: 0 <= c < out.Length1 ==> out[q, c] == 0.0
    modifies t, t.table, t.keys, out
    ensures t.Valid() && t.Contents == old(t.Contents) && t.capacity > 0
    ensures t.table == old(t.table) || fresh(t.table)
    ensures t.keys == old(t.keys) || fresh(t.keys)
    ensures out != t.values && t.values.Length1 == out.Length1
    ensures HoldsRows(t.values, V, 1)
    ensures forall c :: 0 <= c < out.Length1 ==> out[q, c] == QueryOf(V, t.Contents, scale, d, f, c)
    ensures forall q', c :: 0 <= q' < out.Length0 && q' != q && 0 <= c < out.Length1 ==> out[q', c] == old(out[q', c])
  {
    var p := MapSample(f, scale);
    QueryRow(t, out, q, p, d, V);
    assert PointKeys(p, d) == SampleKeys(f, scale, d);
  }

  /** Looks up the d+1 vertices of one query (simplex `p`) with
      `find(key, false)` and adds each found vertex's row, weighted, to the
      zeroed output row `q`. */
  method QueryRow(t: HashTable, out: array2<real>, q: nat, p: SimplexPoint, d: nat, ghost V: seq<seq<real>>)
    requires t.Valid() && t.keySize == d && t.capacity > 0 && Shaped(V, t.filled, out.Length1)
    requires |p.rem0| == d + 1 && |p.rank| == d + 1 && |p.weights| == d + 1
    requires out != t.values && q < out.Length0 && t.values.Length1 == out.Length1
    requires HoldsRows(t.values, V, 1)
    requires forall c :: 0 <= c < out.Length1 ==> out[q, c] == 0.0
    modifies t, t.table, t.keys, out
    ensures t.Valid() && t.Contents == old(t.Contents) && t.capacity > 0
    ensures t.table == old(t.table) || fresh(t.table)
    ensures t.keys == old(t.keys) || fresh(t.keys)
    ensures out != t.values && t.values.Length1 == out.Length1
    ensures HoldsRows(t.values, V, 1)
    ensures forall c :: 0 <= c < out.Length1 ==> out[q, c] == QueryValue(V, t.Contents, PointKeys(p, d), p.weights, c, d + 1)
    ensures forall q', c :: 0 <= q' < out.Length0 && q' != q && 0 <= c < out.Length1 ==> out[q', c] == old(out[q', c])
  {
    ghost var keys := PointKeys(p, d);
    for r := 0 to d + 1
      invariant t.Valid() && t.Contents == old(t.Contents) && t.capacity > 0
      invariant t.table == old(t.table) || fresh(t.table)
      invariant t.keys == old(t.keys) || fresh(t.keys)
      invariant out != t.values && t.values.Length1 == out.Length1
      invariant HoldsRows(t.values, V, 1)
      invariant forall c :: 0 <= c < out.Length1 ==> out[q, c] == QueryValue(V, t.Contents, keys, p.weights, c, r)
      invariant forall q', c :: 0 <= q' < out.Length0 && q' != q && 0 <= c < out.Length1 ==> out[q', c] == old(out[q', c])
    {
      var id := QueryVertex(t, out, q, p, d, r, V);
    }
  }

  /** Looks up vertex r of query simplex `p` and, when it is in the lattice,
      adds its value row weighted by its barycentric weight to output row `q`. */
  method QueryVertex(t: HashTable, out: array2<real>, q: nat, p: SimplexPoint, d: nat, r: nat, ghost V: seq<seq<real>>)
    returns (id: int)
    requires t.Valid() && t.keySize == d && t.capacity > 0 && Shaped(V, t.filled, out.Length1)
    requires |p.rem0| == d + 1 && |p.rank| == d + 1 && |p.weights| == d + 1 && r <= d
    requires out != t.values && q < out.Length0 && t.values.Length1 == out.Length1
    requires HoldsRows(t.values, V, 1)
    requires forall c :: 0 <= c < out.Length1 ==> out[q, c] == QueryValue(V, t.Contents, PointKeys(p, d), p.weights, c, r)
    modifies t, t.table, t.keys, out
    ensures t.Valid() && t.Contents == old(t.Contents) && t.capacity > 0
    ensures t.table == old(t.table) || fresh(t.table)
    ensures t.keys == old(t.keys) || fresh(t.keys)
    ensures out != t.values && t.values.Length1 == out.Length1
    ensures HoldsRows(t.values, V, 1)
    ensures id == IndexOf(t.Contents, PointKeys(p, d)[r])
    ensures forall c :: 0 <= c < out.Length1 ==> out[q, c] == QueryValue(V, t.Contents, PointKeys(p, d), p.weights, c, r + 1)
    ensures forall q', c :: 0 <= q' < out.Length0 && q' != q && 0 <= c < out.Length1 ==> out[q', c] == old(out[q', c])
  {
    var key := ComputeKey(p.rem0, p.rank, d, r);
    HoldsRowsUnfold(t.values, V);
    id := LookupVertex(t, key);
    HoldsRowsUnfold(t.values, V);
    AddVertexRow(out, q, t.values, id, p.weights[r], V, t.Contents, PointKeys(p, d), p.weights, r);
  }

  /** Adds the share of query vertex r (id `id`, weight `w`) to output row
      `q`, which holds the shares of vertices 0..r-1. */
  method AddVertexRow(out: array2<real>, q: nat, values: array2<real>, id: int, w: real, ghost V: seq<seq<real>>,
                      ghost C: seq<seq<int>>, ghost keys: seq<seq<int>>, ghost ws: seq<real>, ghost r: nat)
    requires out != values && q < out.Length0 && values.Length1 == out.Length1
    requires |V| == |C| && forall e :: 0 <= e < |V| ==> |V[e]| == out.Length1
    requires HoldsRows(values, V, 1)
    requires r < |keys| && r < |ws| && w == ws[r] && id == IndexOf(C, keys[r])
    requires forall c :: 0 <= c < out.Length1 ==> out[q, c] == QueryValue(V, C, keys, ws, c, r)
    modifies out
    ensures forall c :: 0 <= c < out.Length1 ==> out[q, c] == QueryValue(V, C, keys, ws, c, r + 1)
    ensures forall q', c :: 0 <= q' < out.Length0 && q' != q && 0 <= c < out.Length1 ==> out[q', c] == old(out[q', c])
  {
    HoldsRowsUnfold(values, V);
    if id >= 0 {
      AccumulateRow(out, q, values, id, w);
    }
  }

  /** Adds `w` times value row `id` to output row `q`. */
  method AccumulateRow(out: array2<real>, q: nat, values: array2<real>, id: nat, w: real)
    requires out != values && q < out.Length0 && id < values.Length0 && out.Length1 == values.Length1
    modifies out
    ensures forall q', c :: 0 <= q' < out.Length0 && 0 <= c < out.Length1 ==>
              out[q', c] == old(out[q', c]) + (if q' == q then w * values[id, c] else 0.0)
  {
    for c := 0 to out.Length1
      invariant forall q', c' :: 0 <= q' < out.Length0 && 0 <= c' < out.Length1 ==>
                  out[q', c'] == old(out[q', c']) + (if q' == q && c' < c then w * values[id, c'] else 0.0)
    {
      out[q, c] := out[q, c] + w * values[id, c];
    }
  }
}
