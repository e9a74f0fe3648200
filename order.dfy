/**
 * The ordering of Rust's `String` (lexicographic by character; UTF-8 byte
 * order and code-point order agree), sorting as `Vec::sort` does it, and an
 * ordered set of strings as a `BTreeSet<String>` iterates it: a strictly
 * ascending sequence.
 */
module Order {

  /** `a < b` in Rust's ordering of strings. */
  predicate Less(a: string, b: string)
    decreases |a|
  {
    if a == [] then b != []
    else if b == [] then false
    else if a[0] != b[0] then a[0] < b[0]
    else Less(a[1..], b[1..])
  }

  predicate LessEq(a: string, b: string) {
    a == b || Less(a, b)
  }

  lemma {:induction false} LessIrreflexive(a: string)
    ensures !Less(a, a)
  {
    if a != [] {
      LessIrreflexive(a[1..]);
    }
  }

  lemma {:induction false} LessAsymmetric(a: string, b: string)
    requires Less(a, b)
    ensures !Less(b, a)
  {
    if a != [] && b != [] && a[0] == b[0] {
      LessAsymmetric(a[1..], b[1..]);
    }
  }

  lemma {:induction false} LessTransitive(a: string, b: string, c: string)
    requires Less(a, b) && Less(b, c)
    ensures Less(a, c)
  {
    if a != [] && a[0] == b[0] && b[0] == c[0] {
      LessTransitive(a[1..], b[1..], c[1..]);
    }
  }

  /** Any two distinct strings are ordered one way or the other. */
  lemma {:induction false} LessTotal(a: string, b: string)
    ensures a == b || Less(a, b) || Less(b, a)
  {
    if a != [] && b != [] && a[0] == b[0] {
      LessTotal(a[1..], b[1..]);
      if a[1..] == b[1..] {
        assert a == [a[0]] + a[1..] && b == [b[0]] + b[1..];
      }
    }
  }

  lemma LessEqTransitive(a: string, b: string, c: string)
    requires LessEq(a, b) && LessEq(b, c)
    ensures LessEq(a, c)
  {
    if a != b && b != c {
      LessTransitive(a, b, c);
    }
  }

  /** Ascending, ties allowed: the order `Vec::sort` leaves behind. */
  predicate Sorted(s: seq<string>) {
    forall i, j :: 0 <= i < j < |s| ==> LessEq(s[i], s[j])
  }

  /** Ascending without ties: sorted and free of duplicates, as a `BTreeSet` yields its elements. */
  predicate StrictlyAscending(s: seq<string>) {
    forall i, j :: 0 <= i < j < |s| ==> Less(s[i], s[j])
  }

  /** No string occurs twice. */
  predicate NoDuplicates(s: seq<string>) {
    forall i, j :: 0 <= i < j < |s| ==> s[i] != s[j]
  }

  lemma StrictlyAscendingHasNoDuplicates(s: seq<string>)
    requires StrictlyAscending(s)
    ensures NoDuplicates(s) && Sorted(s)
  {
    forall i, j | 0 <= i < j < |s| ensures s[i] != s[j] {
      LessIrreflexive(s[i]);
    }
  }

  lemma SortedCons(x: string, s: seq<string>)
    requires Sorted(s)
    requires forall y :: y in s ==> LessEq(x, y)
    ensures Sorted([x] + s)
  {
    var r := [x] + s;
    forall i, j | 0 <= i < j < |r| ensures LessEq(r[i], r[j]) {
      if i > 0 {
        assert r[i] == s[i - 1] && r[j] == s[j - 1];
      } else {
        assert r[j] == s[j - 1];
      }
    }
  }

  /** The head of a sorted sequence is at most each of its elements. */
  lemma SortedHead(s: seq<string>, y: string)
    requires Sorted(s) && y in s
    ensures LessEq(s[0], y)
  {
  }

  /** Inserting `x` into a sorted sequence where it belongs. */
  function InsertSorted(s: seq<string>, x: string): (r: seq<string>)
    requires Sorted(s)
    ensures Sorted(r)
    ensures multiset(r) == multiset(s) + multiset{x}
  {
    if s == [] then [x]
    else if LessEq(x, s[0]) then
      assert forall y :: y in s ==> LessEq(x, y) by {
        forall y | y in s ensures LessEq(x, y) {
          SortedHead(s, y);
          LessEqTransitive(x, s[0], y);
        }
      }
      SortedCons(x, s);
      [x] + s
    else
      var t := InsertSorted(s[1..], x);
      assert s == [s[0]] + s[1..];
      assert forall y :: y in t ==> LessEq(s[0], y) by {
        forall y | y in t ensures LessEq(s[0], y) {
          assert y in multiset(t);
          if y != x {
            assert y in s[1..];
          } else {
            LessTotal(x, s[0]);
          }
        }
      }
      SortedCons(s[0], t);
      [s[0]] + t
  }

  /** `Vec::sort`: a sorted permutation of `xs`. */
  function Sort(xs: seq<string>): (r: seq<string>)
    ensures Sorted(r)
    ensures multiset(r) == multiset(xs)
  {
    if xs == [] then []
    else
      assert xs == xs[..|xs| - 1] + [xs[|xs| - 1]];
      InsertSorted(Sort(xs[..|xs| - 1]), xs[|xs| - 1])
  }

  /** A sorted sequence is determined by its multiset of elements. */
  lemma {:induction false} SortedUnique(a: seq<string>, b: seq<string>)
    requires Sorted(a) && Sorted(b)
    requires multiset(a) == multiset(b)
    ensures a == b
  {
    if a != [] {
      assert a[0] in multiset(b) && b[0] in multiset(a);
      SortedHead(b, a[0]);
      SortedHead(a, b[0]);
      if a[0] != b[0] {
        LessAsymmetric(a[0], b[0]);
      }
      TailMultiset(a);
      TailMultiset(b);
      SortedTail(a);
      SortedTail(b);
      SortedUnique(a[1..], b[1..]);
    }
  }

  lemma TailMultiset(s: seq<string>)
    requires s != []
    ensures multiset(s[1..]) == multiset(s) - multiset{s[0]}
  {
    assert s == [s[0]] + s[1..];
  }

  lemma SortedTail(s: seq<string>)
    requires s != [] && Sorted(s)
    ensures Sorted(s[1..])
  {
    forall i, j | 0 <= i < j < |s| - 1 ensures LessEq(s[1..][i], s[1..][j]) {
      assert s[1..][i] == s[i + 1] && s[1..][j] == s[j + 1];
    }
  }

  /** Sorting forgets the order of its input. */
  lemma SortPermutationInvariant(xs: seq<string>, ys: seq<string>)
    requires multiset(xs) == multiset(ys)
    ensures Sort(xs) == Sort(ys)
  {
    SortedUnique(Sort(xs), Sort(ys));
  }

  /** Sorting an already sorted sequence changes nothing. */
  lemma SortOfSorted(xs: seq<string>)
    requires Sorted(xs)
    ensures Sort(xs) == xs
  {
    SortedUnique(Sort(xs), xs);
  }

  /** `BTreeSet::insert`: adds `x` unless it is already present. */
  function SetInsert(s: seq<string>, x: string): (r: seq<string>)
    requires StrictlyAscending(s)
    ensures StrictlyAscending(r)
    ensures forall y :: y in r <==> y in s || y == x
  {
    StrictlyAscendingHasNoDuplicates(s);
    if x in s then s
    else
      var r := InsertSorted(s, x);
      assert forall y :: y in r <==> y in s || y == x by {
        forall y ensures y in r <==> y in s || y == x {
          assert y in r <==> y in multiset(r);
        }
      }
      forall i, j | 0 <= i < j < |r| ensures Less(r[i], r[j]) {
        if r[i] == r[j] {
          MultiplicityOfDistinct(s, x, r, i, j);
        }
      }
      r
  }

  lemma MultiplicityOfDistinct(s: seq<string>, x: string, r: seq<string>, i: nat, j: nat)
    requires NoDuplicates(s) && x !in s
    requires multiset(r) == multiset(s) + multiset{x}
    requires i < j < |r|
    ensures r[i] != r[j]
  {
    if r[i] == r[j] {
      TwiceInMultiset(r, i, j);
      NoDuplicatesMultiplicity(s, r[i]);
    }
  }

  /** An element at two positions occurs at least twice in the multiset. */
  lemma TwiceInMultiset<T>(a: seq<T>, i: nat, j: nat)
    requires i < j < |a| && a[i] == a[j]
    ensures multiset(a)[a[i]] >= 2
  {
    var front, back := a[..j], a[j..];
    assert a == front + back;
    assert front[i] == a[i] && back[0] == a[j];
    assert multiset(a) == multiset(front) + multiset(back);
  }

  lemma {:induction false} NoDuplicatesMultiplicity(s: seq<string>, y: string)
    requires NoDuplicates(s)
    ensures multiset(s)[y] <= 1
  {
    if s != [] {
      assert s == [s[0]] + s[1..];
      NoDuplicatesMultiplicity(s[1..], y);
      if s[0] == y {
        assert y !in s[1..];
      }
    }
  }

  /** A strictly ascending sequence is determined by the set of its elements. */
  lemma {:induction false} StrictlyAscendingUnique(a: seq<string>, b: seq<string>)
    requires StrictlyAscending(a) && StrictlyAscending(b)
    requires forall y :: y in a <==> y in b
    ensures a == b
  {
    assert a == [] <==> b == [] by {
      if a != [] { assert a[0] in b; }
      if b != [] { assert b[0] in a; }
    }
    if a != [] {
      assert a[0] in b && b[0] in a;
      if a[0] != b[0] {
        var i :| 0 <= i < |b| && b[i] == a[0];
        var j :| 0 <= j < |a| && a[j] == b[0];
        assert Less(b[0], a[0]) && Less(a[0], b[0]);
        LessAsymmetric(a[0], b[0]);
      }
      forall y ensures y in a[1..] <==> y in b[1..] {
        StrictTail(a, y);
        StrictTail(b, y);
      }
      StrictlyAscendingUnique(a[1..], b[1..]);
      assert a == [a[0]] + a[1..] && b == [b[0]] + b[1..];
    }
  }

  lemma StrictTail(a: seq<string>, y: string)
    requires StrictlyAscending(a) && a != []
    ensures y in a[1..] <==> y in a && y != a[0]
  {
    if y in a[1..] {
      var k :| 1 <= k < |a| && a[k] == y;
      LessIrreflexive(a[0]);
    }
    if y in a && y != a[0] {
      var k :| 0 <= k < |a| && a[k] == y;
      assert a[1..][k - 1] == y;
    }
  }
}
