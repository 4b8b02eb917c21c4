/** Shared vocabulary of the model: optional values and results, and the
    array manipulations numpy performs for the image readers (row reversal,
    row-major flattening, reshaping, fancy indexing), stated on sequences. */
module Common {

  datatype Option<T> = None | Some(value: T)

  datatype Result<T, E> = Success(value: T) | Failure(error: E)

  /** The reversal of a sequence: numpy's `flipud` on the first axis. */
  function Reverse<T>(s: seq<T>): seq<T>
  {
    if s == [] then [] else Reverse(s[1..]) + [s[0]]
  }

  lemma {:induction false} ReverseAt<T>(s: seq<T>, i: nat)
    requires i < |s|
    ensures |Reverse(s)| == |s|
    ensures Reverse(s)[i] == s[|s| - 1 - i]
  {
    if i < |s| - 1 {
      ReverseAt(s[1..], i);
    } else {
      ReverseLength(s[1..]);
    }
  }

  lemma {:induction false} ReverseLength<T>(s: seq<T>)
    ensures |Reverse(s)| == |s|
  {
    if s != [] {
      ReverseLength(s[1..]);
    }
  }

  /** Flipping twice restores the original order. */
  lemma ReverseReverse<T>(s: seq<T>)
    ensures Reverse(Reverse(s)) == s
  {
    ReverseLength(s);
    ReverseLength(Reverse(s));
    forall i | 0 <= i < |s|
      ensures Reverse(Reverse(s))[i] == s[i]
    {
      ReverseAt(Reverse(s), i);
      ReverseAt(s, |s| - 1 - i);
    }
  }

  /** Every row of `m` has exactly `w` entries. */
  predicate Rectangular<T>(m: seq<seq<T>>, w: nat)
  {
    forall r :: 0 <= r < |m| ==> |m[r]| == w
  }

  /** Flipping keeps a matrix rectangular. */
  lemma ReverseRectangular<T>(m: seq<seq<T>>, w: nat)
    requires Rectangular(m, w)
    ensures |Reverse(m)| == |m| && Rectangular(Reverse(m), w)
  {
    ReverseLength(m);
    forall r | 0 <= r < |m|
      ensures |Reverse(m)[r]| == w
    {
      ReverseAt(m, r);
    }
  }

  /** Row-major flattening: numpy's `flatten` on a 2-D array (or on a stack
      of 2-D arrays when applied twice). */
  function Flatten<T>(m: seq<seq<T>>): seq<T>
  {
    if m == [] then [] else m[0] + Flatten(m[1..])
  }

  lemma MulMonotone(a: int, b: int, w: nat)
    requires a <= b
    ensures a * w <= b * w
  {
    var d := b - a;
    assert b * w == a * w + d * w;
  }

  lemma MulBound(r: nat, c: nat, rows: nat, cols: nat)
    requires r < rows && c < cols
    ensures r * cols + c < rows * cols
  {
    MulMonotone(r, rows - 1, cols);
    assert (rows - 1) * cols + cols == rows * cols;
  }

  /** Division and remainder by the row width recover row and column. */
  lemma DivModSplit(g: int, rows: nat, cols: nat)
    requires 0 <= g < rows * cols
    ensures cols > 0 && 0 <= g / cols < rows && 0 <= g % cols < cols
    ensures g == (g / cols) * cols + g % cols
  {
    if g / cols >= rows {
      MulMonotone(rows, g / cols, cols);
    }
  }

  lemma DivModOf(q: nat, c: nat, cols: nat)
    requires c < cols
    ensures (q * cols + c) / cols == q && (q * cols + c) % cols == c
  {
    var g := q * cols + c;
    var d := g / cols - q;
    assert d * cols == c - g % cols;
    if d > 0 {
      MulMonotone(1, d, cols);
    } else if d < 0 {
      MulMonotone(d, -1, cols);
    }
  }

  /** Entry `r * w + c` of a flattened rectangular matrix is entry `c` of
      row `r`. */
  lemma {:induction false} FlattenAt<T>(m: seq<seq<T>>, w: nat, r: nat, c: nat)
    requires Rectangular(m, w)
    requires r < |m| && c < w
    ensures |Flatten(m)| == |m| * w
    ensures r * w + c < |Flatten(m)| && Flatten(m)[r * w + c] == m[r][c]
  {
    FlattenLength(m, w);
    MulBound(r, c, |m|, w);
    if r > 0 {
      FlattenAt(m[1..], w, r - 1, c);
      assert (r - 1) * w + c + w == r * w + c;
    }
  }

  lemma {:induction false} FlattenLength<T>(m: seq<seq<T>>, w: nat)
    requires Rectangular(m, w)
    ensures |Flatten(m)| == |m| * w
  {
    if m != [] {
      FlattenLength(m[1..], w);
      assert (|m| - 1) * w + w == |m| * w;
    }
  }

  lemma {:induction false} FlattenConcat<T>(a: seq<seq<T>>, b: seq<seq<T>>)
    ensures Flatten(a + b) == Flatten(a) + Flatten(b)
  {
    if a != [] {
      assert (a + b)[1..] == a[1..] + b;
      FlattenConcat(a[1..], b);
    } else {
      assert a + b == b;
    }
  }

  /** Flattening a stack of matrices starts with the flattened first
      matrix. */
  lemma FlattenFirst<T>(m: seq<seq<seq<T>>>, i: nat)
    requires |m| > 0 && i < |Flatten(m[0])|
    ensures i < |Flatten(Flatten(m))| && Flatten(Flatten(m))[i] == Flatten(m[0])[i]
  {
    assert Flatten(m) == m[0] + Flatten(m[1..]);
    FlattenConcat(m[0], Flatten(m[1..]));
  }

  /** numpy's `reshape((rows, cols))` of a 1-D array: the first `cols`
      entries become row 0, the next `cols` row 1, and so on. */
  function Reshape<T>(s: seq<T>, rows: nat, cols: nat): (m: seq<seq<T>>)
    requires |s| == rows * cols
    ensures |m| == rows && Rectangular(m, cols)
  {
    if rows == 0 then []
    else
      assert |s| == (rows - 1) * cols + cols;
      [s[..cols]] + Reshape(s[cols..], rows - 1, cols)
  }

  /** Entry `(r, c)` of the reshaped array is entry `r * cols + c` of the
      flat one. */
  lemma {:induction false} ReshapeAt<T>(s: seq<T>, rows: nat, cols: nat, r: nat, c: nat)
    requires |s| == rows * cols
    requires r < rows && c < cols
    ensures r * cols + c < |s| && Reshape(s, rows, cols)[r][c] == s[r * cols + c]
  {
    MulBound(r, c, rows, cols);
    if r > 0 {
      assert |s| == (rows - 1) * cols + cols;
      ReshapeAt(s[cols..], rows - 1, cols, r - 1, c);
      assert (r - 1) * cols + c + cols == r * cols + c;
    }
  }

  /** Reshaping undoes flattening and flattening undoes reshaping. */
  lemma {:induction false} FlattenReshape<T>(s: seq<T>, rows: nat, cols: nat)
    requires |s| == rows * cols
    ensures Flatten(Reshape(s, rows, cols)) == s
  {
    if rows > 0 {
      assert |s| == (rows - 1) * cols + cols;
      FlattenReshape(s[cols..], rows - 1, cols);
      assert s == s[..cols] + s[cols..];
    }
  }

  lemma {:induction false} ReshapeFlatten<T>(m: seq<seq<T>>, cols: nat)
    requires Rectangular(m, cols)
    ensures |Flatten(m)| == |m| * cols
    ensures Reshape(Flatten(m), |m|, cols) == m
  {
    FlattenLength(m, cols);
    if m != [] {
      ReshapeFlatten(m[1..], cols);
      var f := Flatten(m);
      assert f == m[0] + Flatten(m[1..]);
      assert f[..cols] == m[0];
      assert f[cols..] == Flatten(m[1..]);
      assert m == [m[0]] + m[1..];
    }
  }

  /** numpy fancy indexing `s[idx]`: the entries of `s` at the listed
      positions, in the order of the positions. */
  function Gather<T>(s: seq<T>, idx: seq<int>): seq<T>
    requires forall k :: 0 <= k < |idx| ==> 0 <= idx[k] < |s|
  {
    seq(|idx|, (k: int) requires 0 <= k < |idx| => s[idx[k]])
  }

  /** All positions are valid indices of a sequence of length `n`. */
  predicate InRange(idx: seq<int>, n: nat)
  {
    forall k :: 0 <= k < |idx| ==> 0 <= idx[k] < n
  }

  /** The identity index list `0, 1, ..., n - 1`. */
  function Identity(n: nat): (r: seq<int>)
    ensures |r| == n && forall k :: 0 <= k < n ==> r[k] == k
  {
    seq(n, (k: int) => k)
  }

  lemma GatherIdentity<T>(s: seq<T>)
    ensures InRange(Identity(|s|), |s|)
    ensures Gather(s, Identity(|s|)) == s
  {
  }

  /** Element-wise map over a sequence. */
  function Map<T, U>(f: T -> U, s: seq<T>): (r: seq<U>)
    ensures |r| == |s| && forall i :: 0 <= i < |s| ==> r[i] == f(s[i])
  {
    seq(|s|, (i: int) requires 0 <= i < |s| => f(s[i]))
  }

  /** The list comprehension `[x for x in xs if x not in excluded]`. */
  function Without(xs: seq<string>, excluded: seq<string>): (r: seq<string>)
    ensures |r| <= |xs|
  {
    if xs == [] then []
    else (if xs[0] in excluded then [] else [xs[0]]) + Without(xs[1..], excluded)
  }

  /** The filtered list holds exactly the names of `xs` not excluded. */
  lemma {:induction false} WithoutMembers(xs: seq<string>, excluded: seq<string>)
    ensures forall x :: x in Without(xs, excluded) <==> x in xs && x !in excluded
  {
    if xs != [] {
      WithoutMembers(xs[1..], excluded);
      assert xs == [xs[0]] + xs[1..];
    }
  }

  /** Filtering keeps the relative order: it distributes over
      concatenation. */
  lemma {:induction false} WithoutConcat(xs: seq<string>, ys: seq<string>, excluded: seq<string>)
    ensures Without(xs + ys, excluded) == Without(xs, excluded) + Without(ys, excluded)
  {
    if xs != [] {
      assert (xs + ys)[1..] == xs[1..] + ys;
      WithoutConcat(xs[1..], ys, excluded);
    } else {
      assert xs + ys == ys;
    }
  }

  /** Filtering a list extended by one name. */
  lemma WithoutSnoc(xs: seq<string>, x: string, excluded: seq<string>)
    ensures Without(xs + [x], excluded) == Without(xs, excluded) + (if x in excluded then [] else [x])
  {
    WithoutConcat(xs, [x], excluded);
    assert [x][1..] == [];
  }

  /** A non-empty sequence is its prefix followed by its last element. */
  lemma ButLast<T>(s: seq<T>)
    requires s != []
    ensures s[..|s| - 1] + [s[|s| - 1]] == s
  {
  }

  /** A prefix one longer is the shorter prefix and the next element. */
  lemma TakeNext<T>(s: seq<T>, k: nat)
    requires k < |s|
    ensures s[..k + 1] == s[..k] + [s[k]]
  {
  }

  /** The names of a list as a set. */
  function SetOf(s: seq<string>): (r: set<string>)
    ensures forall x :: x in r <==> x in s
  {
    set x | x in s
  }
}
