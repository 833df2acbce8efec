/** Labels, dimensions and the stable sort by name that the dimension mapper
    applies with `sort_by(|x, y| x.name.cmp(&y.name))`. */
module Labels {
  import opened Text

  /** One entry of a sample's label set. */
  datatype Label = Label(name: string, value: string)

  /** A CloudWatch dimension carries exactly the name and value of the label it
      was made from, so the two share one representation. */
  type Dimension = Label

  /** Ascending by name under `String::cmp`. */
  predicate SortedByName(ds: seq<Dimension>) {
    forall i, j :: 0 <= i < j < |ds| ==> LexLe(ds[i].name, ds[j].name)
  }

  /** Inserts `x` after every element whose name is at most `x.name`; equal
      names keep their order, which is what makes the sort stable. */
  function Insert(s: seq<Dimension>, x: Dimension): (r: seq<Dimension>)
    ensures |r| == |s| + 1
  {
    if s == [] then [x]
    else if LexLe(s[|s| - 1].name, x.name) then s + [x]
    else Insert(s[..|s| - 1], x) + [s[|s| - 1]]
  }

  /** The stable sort by name, as insertion sort. */
  function SortByName(s: seq<Dimension>): (r: seq<Dimension>)
    ensures |r| == |s|
  {
    if s == [] then [] else Insert(SortByName(s[..|s| - 1]), s[|s| - 1])
  }

  /** Inserting adds exactly `x` and keeps every other element. */
  lemma {:induction false} InsertPermutes(s: seq<Dimension>, x: Dimension)
    ensures multiset(Insert(s, x)) == multiset(s) + multiset{x}
  {
    if s != [] && !LexLe(s[|s| - 1].name, x.name) {
      InsertPermutes(s[..|s| - 1], x);
      assert s == s[..|s| - 1] + [s[|s| - 1]];
    }
  }

  /** The sort returns a permutation of its input. */
  lemma {:induction false} SortByNamePermutes(s: seq<Dimension>)
    ensures multiset(SortByName(s)) == multiset(s)
  {
    if s != [] {
      SortByNamePermutes(s[..|s| - 1]);
      InsertPermutes(SortByName(s[..|s| - 1]), s[|s| - 1]);
      assert s == s[..|s| - 1] + [s[|s| - 1]];
    }
  }

  /** The subsequence of `ds` whose elements carry the name `n`. */
  function WithName(ds: seq<Dimension>, n: string): seq<Dimension> {
    if ds == [] then [] else (if ds[0].name == n then [ds[0]] else []) + WithName(ds[1..], n)
  }

  lemma {:induction false} WithNameAppend(a: seq<Dimension>, b: seq<Dimension>, n: string)
    ensures WithName(a + b, n) == WithName(a, n) + WithName(b, n)
  {
    if a == [] {
      assert a + b == b;
    } else {
      assert (a + b)[0] == a[0];
      assert (a + b)[1..] == a[1..] + b;
      WithNameAppend(a[1..], b, n);
    }
  }

  lemma {:induction false} InsertSorted(s: seq<Dimension>, x: Dimension)
    requires SortedByName(s)
    ensures SortedByName(Insert(s, x))
  {
    if s != [] {
      var last := s[|s| - 1];
      if LexLe(last.name, x.name) {
        forall i | 0 <= i < |s| ensures LexLe(s[i].name, x.name) {
          if i < |s| - 1 {
            LexLeTransitive(s[i].name, last.name, x.name);
          }
        }
      } else {
        var init := s[..|s| - 1];
        InsertSorted(init, x);
        var r := Insert(init, x);
        InsertPermutes(init, x);
        LexLeTotal(last.name, x.name);
        forall i | 0 <= i < |r| ensures LexLe(r[i].name, last.name) {
          assert r[i] in multiset(r);
          if r[i] != x {
            assert r[i] in multiset(init);
            var k :| 0 <= k < |init| && init[k] == r[i];
          }
        }
      }
    }
  }

  /** The sort's result is ascending by name. */
  lemma {:induction false} SortByNameSorted(s: seq<Dimension>)
    ensures SortedByName(SortByName(s))
  {
    if s != [] {
      SortByNameSorted(s[..|s| - 1]);
      InsertSorted(SortByName(s[..|s| - 1]), s[|s| - 1]);
    }
  }

  /** Input that is already in order comes out unchanged. */
  lemma {:induction false} SortByNameOfSorted(s: seq<Dimension>)
    requires SortedByName(s)
    ensures SortByName(s) == s
  {
    if s != [] {
      var init := s[..|s| - 1];
      SortByNameOfSorted(init);
      if |s| > 1 {
        assert LexLe(init[|init| - 1].name, s[|s| - 1].name);
      }
      assert init + [s[|s| - 1]] == s;
    }
  }

  lemma {:induction false} InsertKeepsNameOrder(s: seq<Dimension>, x: Dimension, n: string)
    ensures WithName(Insert(s, x), n) == WithName(s, n) + WithName([x], n)
  {
    if s != [] {
      var init, last := s[..|s| - 1], s[|s| - 1];
      assert s == init + [last];
      if LexLe(last.name, x.name) {
        WithNameAppend(s, [x], n);
      } else {
        InsertKeepsNameOrder(init, x, n);
        WithNameAppend(Insert(init, x), [last], n);
        WithNameAppend(init, [last], n);
        LexLeReflexive(x.name);
        assert x.name == n ==> last.name != n;
      }
    }
  }

  /** Stability: for every name, the elements carrying it come out in the order
      they went in. */
  lemma {:induction false} SortByNameStable(s: seq<Dimension>, n: string)
    ensures WithName(SortByName(s), n) == WithName(s, n)
  {
    if s != [] {
      var init, last := s[..|s| - 1], s[|s| - 1];
      assert s == init + [last];
      SortByNameStable(init, n);
      InsertKeepsNameOrder(SortByName(init), last, n);
      WithNameAppend(init, [last], n);
    }
  }

  lemma {:induction false} WithNameEmpty(ds: seq<Dimension>, i: nat)
    requires i < |ds|
    ensures WithName(ds, ds[i].name) != []
  {
    if i > 0 {
      WithNameEmpty(ds[1..], i - 1);
    }
  }

  /** A sequence sorted by name is determined by the order in which each name's
      elements appear; so every stable sort by name (Rust's `sort_by` among them)
      returns what SortByName returns. */
  lemma {:induction false} SortedByNameUnique(a: seq<Dimension>, b: seq<Dimension>)
    requires SortedByName(a) && SortedByName(b)
    requires forall n :: WithName(a, n) == WithName(b, n)
    ensures a == b
  {
    if a == [] {
      if b != [] {
        WithNameEmpty(b, 0);
        assert false;
      }
    } else {
      WithNameEmpty(a, 0);
      if b == [] {
        assert false;
      }
      WithNameEmpty(b, 0);
      var n, m := a[0].name, b[0].name;
      assert WithName(a, m) != [];
      var i :| 0 <= i < |a| && a[i].name == m by {
        WithNameMember(a, m);
      }
      var j :| 0 <= j < |b| && b[j].name == n by {
        WithNameMember(b, n);
      }
      if i > 0 {
        assert LexLe(n, m);
      } else {
        LexLeReflexive(n);
      }
      if j > 0 {
        assert LexLe(m, n);
      } else {
        LexLeReflexive(m);
      }
      LexLeAntisymmetric(n, m);
      assert WithName(a, n)[0] == a[0];
      assert WithName(b, n)[0] == b[0];
      assert WithName(a, n) == WithName(b, n);
      forall k ensures WithName(a[1..], k) == WithName(b[1..], k) {
        assert WithName(a, k) == WithName(b, k);
        var head := if a[0].name == k then [a[0]] else [];
        assert WithName(a, k) == head + WithName(a[1..], k);
        assert WithName(b, k) == head + WithName(b[1..], k);
        assert (head + WithName(a[1..], k))[|head|..] == WithName(a[1..], k);
        assert (head + WithName(b[1..], k))[|head|..] == WithName(b[1..], k);
      }
      SortedByNameUnique(a[1..], b[1..]);
      assert a == [a[0]] + a[1..];
      assert b == [b[0]] + b[1..];
    }
  }

  lemma {:induction false} WithNameMember(ds: seq<Dimension>, n: string)
    requires WithName(ds, n) != []
    ensures exists i :: 0 <= i < |ds| && ds[i].name == n
  {
    if ds[0].name != n {
      WithNameMember(ds[1..], n);
      var i :| 0 <= i < |ds[1..]| && ds[1..][i].name == n;
      assert ds[i + 1].name == n;
    }
  }

  /** Each name occurs with one value only. */
  predicate UniqueNames(ds: seq<Dimension>) {
    forall i, j :: 0 <= i < |ds| && 0 <= j < |ds| && ds[i].name == ds[j].name ==> ds[i] == ds[j]
  }

  /** When each name has a single value, the sorted order of a collection of
      dimensions does not depend on the order in which they were collected. */
  lemma {:induction false} SortedPermutationUnique(a: seq<Dimension>, b: seq<Dimension>)
    requires SortedByName(a) && SortedByName(b)
    requires multiset(a) == multiset(b)
    requires UniqueNames(a)
    ensures a == b
  {
    if a != [] {
      SortedHeadsAgree(a, b);
      TailsPermute(a, b);
      SortedTail(a);
      SortedTail(b);
      assert UniqueNames(a[1..]) by {
        forall i, j | 0 <= i < |a| - 1 && 0 <= j < |a| - 1 && a[1..][i].name == a[1..][j].name
          ensures a[1..][i] == a[1..][j]
        {
          assert a[1..][i] == a[i + 1] && a[1..][j] == a[j + 1];
        }
      }
      SortedPermutationUnique(a[1..], b[1..]);
      assert a == [a[0]] + a[1..];
      assert b == [b[0]] + b[1..];
    }
  }

  /** Two sorted permutations of a non-empty collection with unique names start
      with the same element. */
  lemma SortedHeadsAgree(a: seq<Dimension>, b: seq<Dimension>)
    requires SortedByName(a) && SortedByName(b)
    requires multiset(a) == multiset(b)
    requires UniqueNames(a) && a != []
    ensures b != [] && a[0] == b[0]
  {
    assert a[0] in multiset(b);
    assert b[0] in multiset(a);
    var i :| 0 <= i < |a| && a[i] == b[0];
    var j :| 0 <= j < |b| && b[j] == a[0];
    if i > 0 {
      assert LexLe(a[0].name, b[0].name);
    } else {
      LexLeReflexive(a[0].name);
    }
    if j > 0 {
      assert LexLe(b[0].name, a[0].name);
    } else {
      LexLeReflexive(b[0].name);
    }
    LexLeAntisymmetric(a[0].name, b[0].name);
  }

  lemma TailsPermute(a: seq<Dimension>, b: seq<Dimension>)
    requires a != [] && b != [] && a[0] == b[0]
    requires multiset(a) == multiset(b)
    ensures multiset(a[1..]) == multiset(b[1..])
  {
    assert a == [a[0]] + a[1..];
    assert b == [b[0]] + b[1..];
    assert multiset(a[1..]) == multiset(a) - multiset{a[0]};
    assert multiset(b[1..]) == multiset(b) - multiset{b[0]};
  }

  lemma SortedTail(a: seq<Dimension>)
    requires SortedByName(a) && a != []
    ensures SortedByName(a[1..])
  {
  }

  lemma {:induction false} InsertAt(p: seq<Dimension>, x: Dimension, j: nat)
    requires j <= |p|
    requires j == 0 || LexLe(p[j - 1].name, x.name)
    requires forall k :: j <= k < |p| ==> !LexLe(p[k].name, x.name)
    ensures Insert(p, x) == p[..j] + [x] + p[j..]
  {
    if |p| == j {
      assert p[j..] == [];
      assert p[..j] == p;
    } else {
      var init := p[..|p| - 1];
      InsertAt(init, x, j);
      assert init[..j] == p[..j];
      assert init[j..] + [p[|p| - 1]] == p[j..];
    }
  }

  /** Sorting one more element of the input inserts it into the sorted prefix. */
  lemma SortByNameExtend(s: seq<Dimension>, i: nat)
    requires i < |s|
    ensures SortByName(s[..i + 1]) == Insert(SortByName(s[..i]), s[i])
  {
    assert s[..i + 1][..i] == s[..i];
  }

  /** The array left by one insertion pass, read as a sequence, is `Insert`. */
  lemma InsertFromShift(p: seq<Dimension>, x: Dimension, j: nat, r: seq<Dimension>)
    requires j <= |p| && |r| == |p| + 1
    requires j == 0 || LexLe(p[j - 1].name, x.name)
    requires forall k :: j <= k < |p| ==> !LexLe(p[k].name, x.name)
    requires forall k :: 0 <= k < j ==> r[k] == p[k]
    requires r[j] == x
    requires forall k :: j < k < |r| ==> r[k] == p[k - 1]
    ensures r == Insert(p, x)
  {
    InsertAt(p, x, j);
    assert r == p[..j] + [x] + p[j..];
  }

  /** The shifting loop of one insertion pass: every element of `a[..i]` from
      the right whose name is greater than `x.name` moves one cell to the right.
      Returns the cell left free for `x`. */
  method ShiftGreater(a: array<Dimension>, i: nat, x: Dimension) returns (j: nat)
    requires i < a.Length
    modifies a
    ensures j <= i
    ensures j == 0 || LexLe(old(a[j - 1]).name, x.name)
    ensures forall k :: j <= k < i ==> !LexLe(old(a[k]).name, x.name)
    ensures forall k :: 0 <= k < j ==> a[k] == old(a[k])
    ensures forall k :: j < k <= i ==> a[k] == old(a[k - 1])
    ensures forall k :: i < k < a.Length ==> a[k] == old(a[k])
  {
    j := i;
    while j > 0 && !LexLe(a[j - 1].name, x.name)
      invariant 0 <= j <= i
      invariant forall k :: 0 <= k < j ==> a[k] == old(a[k])
      invariant forall k :: j < k <= i ==> a[k] == old(a[k - 1])
      invariant forall k :: j <= k < i ==> !LexLe(old(a[k]).name, x.name)
      invariant forall k :: i < k < a.Length ==> a[k] == old(a[k])
    {
      a[j] := a[j - 1];
      j := j - 1;
    }
  }

  /** One pass of the insertion sort: `a[i]` moves left past every element of the
      sorted prefix whose name is greater than its own. */
  method InsertIntoPrefix(a: array<Dimension>, i: nat)
    requires i < a.Length
    modifies a
    ensures a[..i + 1] == Insert(old(a[..i]), old(a[i]))
    ensures a[i + 1..] == old(a[i + 1..])
  {
    var x := a[i];
    ghost var p, rest := a[..i], a[i + 1..];
    var j := ShiftGreater(a, i, x);
    a[j] := x;
    ghost var r := a[..i + 1];
    assert forall k :: 0 <= k < j ==> r[k] == p[k];
    assert forall k :: j < k <= i ==> r[k] == p[k - 1];
    InsertFromShift(p, x, j, r);
    assert a[i + 1..] == rest;
  }

  /** `Vec::sort_by` on the collected dimensions: a stable sort in place. */
  method SortByNameInPlace(a: array<Dimension>)
    modifies a
    ensures a[..] == SortByName(old(a[..]))
  {
    ghost var input := a[..];
    var i := 0;
    while i < a.Length
      invariant 0 <= i <= a.Length
      invariant a[..i] == SortByName(input[..i])
      invariant a[i..] == input[i..]
    {
      ghost var sorted := a[..i];
      assert a[i] == input[i] by {
        assert a[i..][0] == input[i..][0];
      }
      InsertIntoPrefix(a, i);
      assert a[..i + 1] == Insert(sorted, input[i]);
      SortByNameExtend(input, i);
      assert a[i + 1..] == input[i + 1..] by {
        assert input[i + 1..] == input[i..][1..];
      }
      i := i + 1;
    }
    assert input[..a.Length] == input;
  }
}
