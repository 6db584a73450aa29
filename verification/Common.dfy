/** Option, and the counting facts used where a fixed table must have room. */
module Common {

  datatype Option<+T> = None | Some(value: T)

  function Min(a: nat, b: nat): (r: nat)
    ensures r <= a && r <= b && (r == a || r == b)
  {
    if a < b then a else b
  }

  /** The first index from `i` on whose element satisfies `p`, or |s|. */
  function FirstWhere<T>(s: seq<T>, p: T -> bool, i: nat): (r: nat)
    requires i <= |s|
    ensures i <= r <= |s|
    ensures r < |s| ==> p(s[r])
    ensures forall k :: i <= k < r ==> !p(s[k])
    decreases |s| - i
  {
    if i == |s| || p(s[i]) then i else FirstWhere(s, p, i + 1)
  }

  ghost predicate Injective<A(!new), B>(f: A -> B, s: set<A>) {
    forall x, y :: x in s && y in s && f(x) == f(y) ==> x == y
  }

  ghost function Image<A, B>(f: A -> B, s: set<A>): set<B> {
    set x | x in s :: f(x)
  }

  lemma {:induction false} InjectiveImageSize<A(!new), B>(f: A -> B, s: set<A>)
    requires Injective(f, s)
    ensures |Image(f, s)| == |s|
    decreases s
  {
    if s == {} {
      assert Image(f, s) == {};
    } else {
      var x :| x in s;
      var rest := s - {x};
      InjectiveImageSize(f, rest);
      assert f(x) !in Image(f, rest);
      assert Image(f, s) == Image(f, rest) + {f(x)};
    }
  }

  lemma {:induction false} SubsetSize<T>(a: set<T>, b: set<T>)
    requires a <= b
    ensures |a| <= |b|
    ensures |a| == |b| ==> a == b
    decreases b
  {
    if a != {} {
      var x :| x in a;
      SubsetSize(a - {x}, b - {x});
      assert a == (a - {x}) + {x} && b == (b - {x}) + {x};
    } else if |b| == 0 {
      assert b == {};
    }
  }

  ghost function Range(n: nat): (r: set<nat>)
    ensures forall i: nat :: i in r <==> i < n
  {
    if n == 0 then {} else Range(n - 1) + {n - 1}
  }

  ghost function Row(p: nat, cols: nat): set<(nat, nat)> {
    set q | q in Range(cols) :: (p, q)
  }

  ghost function Grid(rows: nat, cols: nat): (r: set<(nat, nat)>)
    ensures forall p: nat, q: nat :: (p, q) in r <==> p < rows && q < cols
  {
    if rows == 0 then {} else Grid(rows - 1, cols) + Row(rows - 1, cols)
  }

  lemma {:induction false} RowSize(p: nat, cols: nat)
    ensures |Row(p, cols)| == cols
  {
    if cols == 0 {
      assert Row(p, 0) == {};
    } else {
      RowSize(p, cols - 1);
      assert Row(p, cols) == Row(p, cols - 1) + {(p, cols - 1)};
    }
  }

  lemma {:induction false} GridSize(rows: nat, cols: nat)
    ensures |Grid(rows, cols)| == rows * cols
  {
    if rows > 0 {
      var before := rows - 1;
      GridSize(before, cols);
      GridStep(before, cols);
      Distribute(before, cols);
    }
  }

  lemma Distribute(a: int, b: int)
    ensures (a + 1) * b == a * b + b
  {}

  /** Multiplication by repeated addition. */
  function Times(n: nat, w: nat): nat {
    if n == 0 then 0 else Times(n - 1, w) + w
  }

  lemma {:induction false} TimesIsProduct(n: nat, w: nat)
    ensures Times(n, w) == n * w
  {
    if n > 0 {
      var before := n - 1;
      TimesIsProduct(before, w);
      Distribute(before, w);
    }
  }

  lemma TimesStep(n: nat, w: nat, more: bool)
    ensures Times(n + if more then 1 else 0, w) == Times(n, w) + if more then w else 0
  {}

  lemma GridStep(rows: nat, cols: nat)
    ensures |Grid(rows + 1, cols)| == |Grid(rows, cols)| + cols
  {
    RowSize(rows, cols);
    var g, row := Grid(rows, cols), Row(rows, cols);
    assert forall x :: x in row ==> x.0 == rows && (rows, x.1) !in g;
    assert g !! row;
    assert Grid(rows + 1, cols) == g + row;
  }

  ghost predicate NoDuplicates<T>(s: seq<T>) {
    forall i, j :: 0 <= i < j < |s| ==> s[i] != s[j]
  }

  ghost function Elements<T>(s: seq<T>): set<T> {
    set x | x in s
  }

  lemma {:induction false} DistinctSize<T>(s: seq<T>)
    requires NoDuplicates(s)
    ensures |Elements(s)| == |s|
  {
    if s == [] {
      assert Elements(s) == {};
    } else {
      var last := |s| - 1;
      DistinctSize(s[..last]);
      assert s[last] !in Elements(s[..last]);
      assert Elements(s) == Elements(s[..last]) + {s[last]};
    }
  }
}
