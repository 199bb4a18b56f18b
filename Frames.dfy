/** The few dataframe operations the pipelines rely on, over sequences: `unique()`
    (first appearances, in order), the row selection `df[df[col] == v]` (row
    positions, in order) and fixed-size batching with `iloc[start:start+size]`. */
module Frames {
  import opened Wrappers
  import Text

  /** The elements are pairwise distinct. */
  predicate Distinct<T(==)>(s: seq<T>) {
    forall i, j :: 0 <= i < j < |s| ==> s[i] != s[j]
  }

  /** In a sequence without repeats, an element does not occur before its position. */
  lemma DistinctBefore<T>(s: seq<T>, n: nat)
    requires Distinct(s) && 0 < n <= |s|
    ensures s[n - 1] !in s[..n - 1]
  {
  }

  /** Some element of a non-empty set: the next key a loop over a dict's items
      visits (the visiting order is not modelled). */
  method Pick<T>(s: set<T>) returns (x: T)
    requires s != {}
    ensures x in s
  {
    x :| x in s;
  }

  /** `Series.unique()`: each value once, in order of first appearance. */
  function Unique<T(==)>(s: seq<T>): (r: seq<T>)
    ensures Distinct(r)
    ensures forall i :: 0 <= i < |s| ==> s[i] in r
    ensures forall i :: 0 <= i < |r| ==> r[i] in s
    decreases |s|
  {
    if s == [] then []
    else
      var u := Unique(s[..|s| - 1]);
      assert forall i :: 0 <= i < |s| - 1 ==> s[i] == s[..|s| - 1][i];
      if s[|s| - 1] in u then u else u + [s[|s| - 1]]
  }

  /** `xs.index(x)`: the first position of `x`; None where Python raises ValueError. */
  function IndexOf<T(==)>(s: seq<T>, x: T): (r: Option<nat>)
    ensures r.Some? ==> r.value < |s| && s[r.value] == x && forall j :: 0 <= j < r.value ==> s[j] != x
    ensures r.None? ==> x !in s
  {
    if s == [] then None
    else if s[0] == x then Some(0)
    else
      match IndexOf(s[1..], x)
      case None => None
      case Some(i) => Some(i + 1)
  }

  /** Strictly increasing positions. */
  predicate Increasing(s: seq<nat>) {
    forall i, j :: 0 <= i < j < |s| ==> s[i] < s[j]
  }

  /** The row positions `p < n` with `col[p] == v`, in order: the index of `df[df[col] == v]`. */
  function PositionsOf<T(==)>(col: seq<T>, v: T, n: nat): (r: seq<nat>)
    requires n <= |col|
    ensures |r| <= n && forall i :: 0 <= i < |r| ==> r[i] < n
  {
    if n == 0 then []
    else
      var r0 := PositionsOf(col, v, n - 1);
      if col[n - 1] == v then r0 + [n - 1] else r0
  }

  /** The positions are exactly those below `n` holding `v`. */
  lemma {:induction false} PositionsOfExact<T>(col: seq<T>, v: T, n: nat)
    requires n <= |col|
    ensures forall p: nat :: p in PositionsOf(col, v, n) <==> p < n && col[p] == v
  {
    if n > 0 {
      PositionsOfExact(col, v, n - 1);
    }
  }

  /** The positions come in row order. */
  lemma {:induction false} PositionsOfIncreasing<T>(col: seq<T>, v: T, n: nat)
    requires n <= |col|
    ensures Increasing(PositionsOf(col, v, n))
  {
    if n > 0 {
      PositionsOfIncreasing(col, v, n - 1);
    }
  }

  /** The row positions `p < n` whose value passes `keep`, in order: the index of `df[mask]`. */
  function Where<T>(col: seq<T>, keep: T -> bool, n: nat): (r: seq<nat>)
    requires n <= |col|
    ensures |r| <= n && forall i :: 0 <= i < |r| ==> r[i] < n
  {
    if n == 0 then []
    else
      var r0 := Where(col, keep, n - 1);
      if keep(col[n - 1]) then r0 + [n - 1] else r0
  }

  /** The positions are increasing, below `n`, and exactly those that pass. */
  lemma {:induction false} WhereFacts<T>(col: seq<T>, keep: T -> bool, n: nat)
    requires n <= |col|
    ensures Increasing(Where(col, keep, n))
    ensures forall p: nat :: p in Where(col, keep, n) <==> p < n && keep(col[p])
  {
    if n > 0 {
      WhereFacts(col, keep, n - 1);
    }
  }

  /** Every position `df[mask]` takes passes the mask. */
  lemma WherePasses<T>(col: seq<T>, keep: T -> bool, n: nat)
    requires n <= |col|
    ensures Increasing(Where(col, keep, n))
    ensures forall j :: 0 <= j < |Where(col, keep, n)| ==> keep(col[Where(col, keep, n)[j]])
  {
    var r := Where(col, keep, n);
    WhereFacts(col, keep, n);
    forall j | 0 <= j < |r|
      ensures keep(col[r[j]])
    {
      assert r[j] in r;
    }
  }

  /** The mask `~mask`. */
  function Not<T>(keep: T -> bool): T -> bool {
    x => !keep(x)
  }

  /** `df[mask]` and `df[~mask]` share the rows out between them. */
  lemma {:induction false} WherePartition<T>(col: seq<T>, keep: T -> bool, n: nat)
    requires n <= |col|
    ensures |Where(col, keep, n)| + |Where(col, Not(keep), n)| == n
  {
    if n > 0 {
      WherePartition(col, keep, n - 1);
      assert Not(keep)(col[n - 1]) == !keep(col[n - 1]);
    }
  }

  /** The positions before `n + 1` that pass: those before `n`, then `n` when it passes. */
  lemma WhereStep<T>(col: seq<T>, keep: T -> bool, n: nat)
    requires n < |col|
    ensures Where(col, keep, n + 1) == Where(col, keep, n) + (if keep(col[n]) then [n] else [])
  {
  }

  /** `range(n)`: every row position, in order. */
  function Indices(n: nat): (r: seq<nat>)
    ensures |r| == n && forall i :: 0 <= i < n ==> r[i] == i
    ensures Increasing(r)
    ensures forall p: nat :: p in r <==> p < n
  {
    var r := seq(n, i requires 0 <= i < n => i as nat);
    forall p: nat | p < n ensures p in r {
      assert r[p] == p;
    }
    forall p: nat | p in r ensures p < n {
      var i :| 0 <= i < |r| && r[i] == p;
    }
    r
  }

  /** `df.loc[positions].reset_index(drop=True)`: the rows at `positions`, in
      that order, renumbered from 0. */
  function Take<T>(rows: seq<T>, positions: seq<nat>): (r: seq<T>)
    requires forall i :: 0 <= i < |positions| ==> positions[i] < |rows|
    ensures |r| == |positions| && forall j :: 0 <= j < |r| ==> r[j] == rows[positions[j]]
  {
    seq(|positions|, j requires 0 <= j < |positions| => rows[positions[j]])
  }

  /** `[xs[start:start+size] for start in range(0, len(xs), size)]`. */
  function Chunks<T>(s: seq<T>, size: nat): (r: seq<seq<T>>)
    requires size > 0
    ensures forall i :: 0 <= i < |r| ==> 0 < |r[i]| <= size
    decreases |s|
  {
    if s == [] then []
    else if |s| <= size then [s]
    else [s[..size]] + Chunks(s[size..], size)
  }

  /** The batches cover the sequence exactly once, in order. */
  lemma {:induction false} ChunksCover<T>(s: seq<T>, size: nat)
    requires size > 0
    ensures Text.Concat(Chunks(s, size)) == s
    decreases |s|
  {
    if s != [] && |s| > size {
      ChunksCover(s[size..], size);
      assert s == s[..size] + s[size..];
    }
  }

  /** The batches from `i` on: the slice up to `end`, then the batches from `end` on. */
  lemma ChunksFrom<T>(s: seq<T>, size: nat, i: nat, end: nat)
    requires size > 0 && i < |s| && end == (if i + size <= |s| then i + size else |s|)
    ensures Chunks(s[i..], size) == [s[i..end]] + Chunks(s[end..], size)
  {
    var rest := s[i..];
    if |rest| <= size {
      assert rest == s[i..end] && s[end..] == [];
    } else {
      assert rest[..size] == s[i..end] && rest[size..] == s[end..];
    }
  }

  /** While walking the batches: when the batches from `i` on are those from
      the `k`-th on, batch `k` is the slice from `i` and the rest follow. */
  lemma ChunksStep<T>(s: seq<T>, size: nat, i: nat, end: nat, chunks: seq<seq<T>>, k: nat)
    requires size > 0 && i < |s| && end == (if i + size <= |s| then i + size else |s|)
    requires k <= |chunks| && Chunks(s[i..], size) == chunks[k..]
    ensures k < |chunks| && chunks[k] == s[i..end] && chunks[k + 1..] == Chunks(s[end..], size)
  {
    ChunksFrom(s, size, i, end);
    assert chunks[k..][0] == chunks[k];
    assert chunks[k..][1..] == chunks[k + 1..];
  }

  /** Walking the sequence in steps of `size`: while the `k`-th step starts
      inside the sequence, batch `k` is the slice taken there. */
  lemma ChunkNext<T>(s: seq<T>, size: nat, k: nat, i: nat, end: nat)
    requires size > 0 && i == k * size && i < |s| && end == (if i + size <= |s| then i + size else |s|)
    ensures k < |Chunks(s, size)| && Chunks(s, size)[k] == s[i..end]
  {
    ChunksCount(s, size);
    var n := |Chunks(s, size)|;
    if k >= n {
      assert k * size >= n * size by {
        MulMono(n, k, size);
      }
    }
    ChunkAt(s, size, k);
  }

  /** Once the `k`-th step starts past the end, the `k` steps took every batch. */
  lemma ChunksDone<T>(s: seq<T>, size: nat, k: nat)
    requires size > 0 && k <= |Chunks(s, size)| && k * size >= |s|
    ensures k == |Chunks(s, size)|
  {
    ChunksCount(s, size);
    var n := |Chunks(s, size)|;
    assert (k + 1) * size == k * size + size;
    if k < n {
      MulMono(k + 1, n, size);
    }
  }

  lemma MulMono(a: nat, b: nat, c: nat)
    requires a <= b
    ensures a * c <= b * c
  {
  }

  /** The record of the visited batches, one entry longer. */
  lemma Snoc<T>(s: seq<T>, x: T)
    ensures s[..|s|] == s && (s + [x])[..|s|] == s && (s + [x])[|s|] == x
  {
  }

  /** One more element of the prefix. */
  lemma PrefixNext<T>(s: seq<T>, n: nat)
    requires n < |s|
    ensures s[..n + 1] == s[..n] + [s[n]]
  {
  }

  /** Element `i` of `b` is element `|a| + i` of `a + b`. */
  lemma AppendAt<T>(a: seq<T>, b: seq<T>, i: nat, k: nat)
    requires i < |b| && k == |a| + i
    ensures k < |a + b| && (a + b)[k] == b[i]
  {
  }

  /** Element `k` of `a` is element `k` of `a + b`. */
  lemma AppendAtStart<T>(a: seq<T>, b: seq<T>, k: nat)
    requires k < |a|
    ensures (a + b)[k] == a[k]
  {
  }

  /** The first `|a| + n` elements of `a + b` are `a` and then the first `n` of `b`. */
  lemma PrefixAppend<T>(a: seq<T>, b: seq<T>, n: nat, k: nat)
    requires n < |b| && k == |a| + n
    ensures (a + b)[..k] == a + b[..n] && (a + b)[k] == b[n]
  {
  }

  /** There are `ceil(|s| / size)` batches: just enough to hold every element. */
  lemma {:induction false} ChunksCount<T>(s: seq<T>, size: nat)
    requires size > 0
    ensures |s| <= |Chunks(s, size)| * size < |s| + size
    decreases |s|
  {
    if s != [] && |s| > size {
      ChunksCount(s[size..], size);
      assert |Chunks(s, size)| == 1 + |Chunks(s[size..], size)|;
    }
  }

  /** Every batch but the last is full. */
  lemma {:induction false} ChunksFull<T>(s: seq<T>, size: nat, i: nat)
    requires size > 0 && i + 1 < |Chunks(s, size)|
    ensures |Chunks(s, size)[i]| == size
    decreases |s|
  {
    if i > 0 {
      ChunksFull(s[size..], size, i - 1);
    }
  }

  /** Batch `b` is the slice starting at `b * size`. */
  lemma {:induction false} ChunkAt<T>(s: seq<T>, size: nat, b: nat)
    requires size > 0 && b < |Chunks(s, size)|
    ensures b * size < |s|
    ensures Chunks(s, size)[b] == s[b * size .. if b * size + size <= |s| then b * size + size else |s|]
    decreases |s|
  {
    if b > 0 {
      assert |s| > size;
      var t := s[size..];
      assert Chunks(s, size) == [s[..size]] + Chunks(t, size);
      assert Chunks(s, size)[b] == Chunks(t, size)[b - 1];
      ChunkAt(t, size, b - 1);
      Shift(b, size);
      var lo := (b - 1) * size;
      var hi := if lo + size <= |t| then lo + size else |t|;
      SliceOfSuffix(s, size, lo, hi);
    }
  }

  /** Every element of a batch is an element of the sequence. */
  lemma {:induction false} ChunkElement<T>(s: seq<T>, size: nat, b: nat, i: nat)
    requires size > 0 && b < |Chunks(s, size)| && i < |Chunks(s, size)[b]|
    ensures Chunks(s, size)[b][i] in s
    decreases |s|
  {
    if |s| > size {
      var t := s[size..];
      assert Chunks(s, size) == [s[..size]] + Chunks(t, size);
      if b > 0 {
        assert Chunks(s, size)[b] == Chunks(t, size)[b - 1];
        ChunkElement(t, size, b - 1, i);
        assert Chunks(t, size)[b - 1][i] in t;
      } else {
        assert s[..size][i] == s[i];
      }
    }
  }

  /** Every element of the sequence lies in some batch. */
  lemma {:induction false} ChunkCovers<T>(s: seq<T>, size: nat, i: nat)
    requires size > 0 && i < |s|
    ensures exists b :: 0 <= b < |Chunks(s, size)| && s[i] in Chunks(s, size)[b]
    decreases |s|
  {
    if |s| <= size {
      assert s[i] in Chunks(s, size)[0];
    } else {
      var t := s[size..];
      assert Chunks(s, size) == [s[..size]] + Chunks(t, size);
      if i < size {
        assert s[..size][i] == s[i];
        assert s[i] in Chunks(s, size)[0];
      } else {
        ChunkCovers(t, size, i - size);
        var b :| 0 <= b < |Chunks(t, size)| && t[i - size] in Chunks(t, size)[b];
        assert Chunks(s, size)[b + 1] == Chunks(t, size)[b];
      }
    }
  }

  /** Batch `b` starts one batch after batch `b - 1`. */
  lemma Shift(b: nat, size: nat)
    requires b > 0
    ensures 0 <= (b - 1) * size && (b - 1) * size + size == b * size
  {
  }

  /** A slice of a suffix is a slice of the whole, shifted. */
  lemma SliceOfSuffix<T>(s: seq<T>, k: nat, lo: nat, hi: nat)
    requires k <= |s| && lo <= hi <= |s| - k
    ensures s[k..][lo..hi] == s[k + lo .. k + hi]
  {
  }

  /** `Series.dropna()`: the values that are present, in order. */
  function Present<T(==,!new)>(col: seq<Option<T>>): (r: seq<T>)
    ensures forall x :: x in r <==> Some(x) in col
    decreases |col|
  {
    if col == [] then []
    else
      var r0 := Present(col[..|col| - 1]);
      assert col == col[..|col| - 1] + [col[|col| - 1]];
      if col[|col| - 1].Some? then r0 + [col[|col| - 1].value] else r0
  }

  /** `[c for c in wanted if c in present]`: the wanted columns that exist, in the wanted order. */
  function Select<T(==,!new)>(wanted: seq<T>, present: set<T>): (r: seq<T>)
  {
    if wanted == [] then []
    else (if wanted[0] in present then [wanted[0]] else []) + Select(wanted[1..], present)
  }

  /** The projection holds exactly the wanted columns that exist, each once
      when the wish list has no repeats. */
  lemma {:induction false} SelectMembers<T(!new)>(wanted: seq<T>, present: set<T>)
    ensures forall x :: x in Select(wanted, present) <==> x in wanted && x in present
    ensures Distinct(wanted) ==> Distinct(Select(wanted, present))
  {
    if wanted != [] {
      SelectMembers(wanted[1..], present);
      assert forall x :: x in wanted <==> x == wanted[0] || x in wanted[1..];
    }
  }

  /** When every wanted column exists, the projection keeps them all, in order. */
  lemma {:induction false} SelectAll<T(!new)>(wanted: seq<T>, present: set<T>)
    requires forall x :: x in wanted ==> x in present
    ensures Select(wanted, present) == wanted
  {
    if wanted != [] {
      SelectAll(wanted[1..], present);
    }
  }

  /** Projection distributes over concatenated wish lists. */
  lemma {:induction false} SelectAppend<T(!new)>(a: seq<T>, b: seq<T>, present: set<T>)
    ensures Select(a + b, present) == Select(a, present) + Select(b, present)
  {
    if a == [] {
      assert a + b == b;
    } else {
      assert (a + b)[0] == a[0] && (a + b)[1..] == a[1..] + b;
      SelectAppend(a[1..], b, present);
      var h := if a[0] in present then [a[0]] else [];
      assert Select(a + b, present) == h + Select(a[1..] + b, present);
      assert Select(a, present) == h + Select(a[1..], present);
    }
  }

  /** A wish list whose entries all exist but one is kept whole, that one
      included exactly when it exists. */
  lemma SelectAroundOne<T(!new)>(a: seq<T>, x: T, b: seq<T>, present: set<T>)
    requires forall y :: y in a ==> y in present
    requires forall y :: y in b ==> y in present
    ensures Select(a + [x] + b, present) == a + (if x in present then [x] else []) + b
  {
    var one := if x in present then [x] else [];
    calc {
      Select(a + [x] + b, present);
      { SelectAppend(a + [x], b, present); }
      Select(a + [x], present) + Select(b, present);
      { SelectAppend(a, [x], present); }
      Select(a, present) + Select([x], present) + Select(b, present);
      { assert [x][1..] == []; }
      Select(a, present) + one + Select(b, present);
      { SelectAll(a, present); SelectAll(b, present); }
      a + one + b;
    }
  }
}
