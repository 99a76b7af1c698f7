/** Lists of question indices as the quiz manager builds them:
    `list(range(n))`, the filtered list of indices not in a set, picking
    questions by index, and `random.shuffle`, which may return any
    permutation of its input. */
module IndexSeqs {

  /** No element occurs twice. */
  predicate Distinct<T(==)>(s: seq<T>)
  {
    forall i, j | 0 <= i < j < |s| :: s[i] != s[j]
  }

  /** The valid positions into a pool of `n` questions. */
  function Below(n: nat): (r: set<nat>)
    ensures forall i :: i in r <==> 0 <= i < n
  {
    if n == 0 then {} else Below(n - 1) + {n - 1}
  }

  lemma {:induction false} BelowCard(n: nat)
    ensures |Below(n)| == n
  {
    if n > 0 {
      BelowCard(n - 1);
      assert n - 1 !in Below(n - 1);
    }
  }

  /** `list(range(n))`. */
  function Range(n: nat): (r: seq<nat>)
    ensures |r| == n
    ensures forall i | 0 <= i < n :: r[i] == i
    ensures forall i :: i in r <==> 0 <= i < n
  {
    if n == 0 then []
    else
      var r := Range(n - 1) + [n - 1];
      assert forall i :: i in r <==> i in Range(n - 1) || i == n - 1;
      r
  }

  /** `[i for i in range(n) if i not in used]`. */
  function Unused(n: nat, used: set<nat>): (r: seq<nat>)
    ensures Distinct(r)
    ensures forall i :: i in r <==> 0 <= i < n && i !in used
  {
    if n == 0 then []
    else if n - 1 in used then Unused(n - 1, used)
    else Unused(n - 1, used) + [n - 1]
  }

  lemma {:induction false} DistinctCard<T>(s: seq<T>)
    requires Distinct(s)
    ensures |set x | x in s| == |s|
  {
    if s != [] {
      DistinctCard(s[1..]);
      assert (set x | x in s) == {s[0]} + (set x | x in s[1..]);
      assert s[0] !in s[1..];
    }
  }

  /** The unused list is as long as the set of in-range indices not used. */
  lemma UnusedCount(n: nat, used: set<nat>)
    ensures |Unused(n, used)| == |Below(n) - used|
  {
    var r := Unused(n, used);
    DistinctCard(r);
    var elems := set x | x in r;
    var target := Below(n) - used;
    assert elems <= target;
    assert target <= elems;
    assert elems == target;
  }

  /** Nothing is unused when no index is used. */
  lemma UnusedOfNothing(n: nat)
    ensures |Unused(n, {})| == n
  {
    UnusedCount(n, {});
    BelowCard(n);
  }

  /** A set of positions in range has at most `n` elements. */
  lemma BoundedCard(s: set<nat>, n: nat)
    requires s <= Below(n)
    ensures |s| <= n
  {
    BelowCard(n);
    var rest := Below(n) - s;
    assert Below(n) == s + rest && s * rest == {};
    assert |Below(n)| == |s| + |rest|;
  }

  /** Distinctness, stated through the multiset of the elements. */
  lemma {:induction false} DistinctMultiset<T>(s: seq<T>)
    ensures Distinct(s) <==> forall x :: multiset(s)[x] <= 1
  {
    if s != [] {
      DistinctMultiset(s[1..]);
      assert s == [s[0]] + s[1..];
      assert multiset(s) == multiset{s[0]} + multiset(s[1..]);
      if Distinct(s) {
        assert s[0] !in s[1..];
        assert Distinct(s[1..]) by {
          forall i, j | 0 <= i < j < |s[1..]| ensures s[1..][i] != s[1..][j] {
            assert s[1..][i] == s[i + 1] && s[1..][j] == s[j + 1];
          }
        }
        assert multiset(s[1..])[s[0]] == 0;
        forall x ensures multiset(s)[x] <= 1 {
          assert multiset(s[1..])[x] <= 1;
        }
      } else {
        var i, j :| 0 <= i < j < |s| && s[i] == s[j];
        if i == 0 {
          assert s[1..][j - 1] == s[j];
          assert s[0] in multiset(s[1..]);
          assert multiset(s)[s[0]] >= 2;
        } else {
          assert s[1..][i - 1] == s[1..][j - 1];
          assert !Distinct(s[1..]);
          var x :| multiset(s[1..])[x] > 1;
          assert multiset(s)[x] > 1;
        }
      }
    }
  }

  /** `random.shuffle(xs)`: the result is some permutation of `xs`, and
      every property proved about a caller holds for all of them. */
  method Shuffle<T(==)>(xs: seq<T>) returns (ys: seq<T>)
    ensures multiset(ys) == multiset(xs)
    ensures |ys| == |xs|
    ensures forall x :: x in ys <==> x in xs
    ensures Distinct(xs) ==> Distinct(ys)
  {
    ys :| multiset(ys) == multiset(xs);
    assert |ys| == |multiset(ys)| == |multiset(xs)| == |xs|;
    assert forall x :: x in ys <==> x in multiset(ys);
    DistinctMultiset(xs);
    DistinctMultiset(ys);
  }

  /** `[xs[i] for i in indices]`. */
  function Pick<T>(xs: seq<T>, indices: seq<nat>): (r: seq<T>)
    requires forall j :: 0 <= j < |indices| ==> indices[j] < |xs|
    ensures |r| == |indices|
    ensures forall j :: 0 <= j < |indices| ==> r[j] == xs[indices[j]]
  {
    seq(|indices|, j requires 0 <= j < |indices| => xs[indices[j]])
  }
}
