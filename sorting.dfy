/** The three orders phases are sorted by (the comparators of
    app/domain/light-config.ts), and the stable sort `Array.prototype.toSorted`
    performs with them. */
module PhaseSort {
  import opened Phases

  /** `(a, b) => b.duration - a.duration`, `sortByOrder` and `sortByPriority`. */
  datatype SortKey = ByDurationDescending | ByOrder | ByPriority

  /** The number a comparator subtracts: sorting ascending on it is sorting
      with that comparator. */
  function Key(key: SortKey, p: Phase): int {
    match key
    case ByDurationDescending => -p.duration
    case ByOrder => STATE_ATTRIBUTES(p.state).order
    case ByPriority => STATE_ATTRIBUTES(p.state).priority
  }

  predicate Ordered(key: SortKey, ps: seq<Phase>) {
    forall i, j | 0 <= i < j < |ps| :: Key(key, ps[i]) <= Key(key, ps[j])
  }

  lemma {:induction false} OrderedCons(key: SortKey, a: Phase, rest: seq<Phase>)
    requires Ordered(key, rest)
    requires forall y | y in rest :: Key(key, a) <= Key(key, y)
    ensures Ordered(key, [a] + rest)
  {
    forall i, j | 0 <= i < j < |[a] + rest|
      ensures Key(key, ([a] + rest)[i]) <= Key(key, ([a] + rest)[j])
    {
      if i > 0 {
        assert ([a] + rest)[i] == rest[i - 1];
      }
      assert ([a] + rest)[j] == rest[j - 1];
    }
  }

  /** Inserts `x` before the first element whose key is not smaller, so that
      it stays ahead of the elements it preceded with an equal key. */
  function Insert(key: SortKey, x: Phase, s: seq<Phase>): seq<Phase> {
    if s == [] || Key(key, x) <= Key(key, s[0]) then [x] + s
    else [s[0]] + Insert(key, x, s[1..])
  }

  /** A stable sort of `ps` ascending on `key`. */
  function SortBy(key: SortKey, ps: seq<Phase>): seq<Phase> {
    if ps == [] then [] else Insert(key, ps[0], SortBy(key, ps[1..]))
  }

  function Reverse(ps: seq<Phase>): seq<Phase> {
    if ps == [] then [] else Reverse(ps[1..]) + [ps[0]]
  }

  /** The phases of `ps` whose key is `k`, in their order. */
  function WithKey(key: SortKey, k: int, ps: seq<Phase>): seq<Phase> {
    if ps == [] then []
    else (if Key(key, ps[0]) == k then [ps[0]] else []) + WithKey(key, k, ps[1..])
  }

  lemma {:induction false} WithKeyConcat(key: SortKey, k: int, a: seq<Phase>, b: seq<Phase>)
    ensures WithKey(key, k, a + b) == WithKey(key, k, a) + WithKey(key, k, b)
  {
    if a == [] {
      assert a + b == b;
    } else {
      var head := if Key(key, a[0]) == k then [a[0]] else [];
      var ra, rb := WithKey(key, k, a[1..]), WithKey(key, k, b);
      WithKeyConcat(key, k, a[1..], b);
      calc {
        WithKey(key, k, a + b);
        { assert (a + b)[0] == a[0]; assert (a + b)[1..] == a[1..] + b; }
        head + WithKey(key, k, a[1..] + b);
        head + (ra + rb);
        { assert head + (ra + rb) == (head + ra) + rb; }
        (head + ra) + rb;
      }
    }
  }


  /** Inserting `x` puts it ahead of every element with its key. */
  lemma {:induction false} InsertStable(key: SortKey, k: int, x: Phase, s: seq<Phase>)
    ensures WithKey(key, k, Insert(key, x, s))
            == (if Key(key, x) == k then [x] else []) + WithKey(key, k, s)
  {
    if !(s == [] || Key(key, x) <= Key(key, s[0])) {
      InsertStable(key, k, x, s[1..]);
      assert ([s[0]] + Insert(key, x, s[1..]))[1..] == Insert(key, x, s[1..]);
    }
  }

  lemma {:induction false} InsertCounts(key: SortKey, x: Phase, s: seq<Phase>)
    ensures multiset(Insert(key, x, s)) == multiset(s) + multiset{x}
  {
    if !(s == [] || Key(key, x) <= Key(key, s[0])) {
      InsertCounts(key, x, s[1..]);
      assert s == [s[0]] + s[1..];
    }
  }

  lemma {:induction false} InsertOrdered(key: SortKey, x: Phase, s: seq<Phase>)
    requires Ordered(key, s)
    ensures Ordered(key, Insert(key, x, s))
  {
    if s == [] || Key(key, x) <= Key(key, s[0]) {
      OrderedCons(key, x, s);
    } else {
      var rest := Insert(key, x, s[1..]);
      InsertOrdered(key, x, s[1..]);
      InsertCounts(key, x, s[1..]);
      assert s == [s[0]] + s[1..];
      forall y | y in rest ensures Key(key, s[0]) <= Key(key, y) {
        assert y in multiset(rest);
        assert y == x || y in s[1..];
      }
      OrderedCons(key, s[0], rest);
    }
  }

  /** `SortBy` sorts: its result is ordered on the key and a permutation of
      its input (`SortByStable` adds that it is stable). */
  lemma {:induction false} SortBySorts(key: SortKey, ps: seq<Phase>)
    ensures Ordered(key, SortBy(key, ps))
    ensures multiset(SortBy(key, ps)) == multiset(ps)
  {
    if ps != [] {
      SortBySorts(key, ps[1..]);
      InsertOrdered(key, ps[0], SortBy(key, ps[1..]));
      InsertCounts(key, ps[0], SortBy(key, ps[1..]));
      assert ps == [ps[0]] + ps[1..];
    }
  }

  /** `SortBy` is stable: for every key value, the elements with that key
      come out in the order they went in. */
  lemma {:induction false} SortByStable(key: SortKey, ps: seq<Phase>)
    ensures forall k :: WithKey(key, k, SortBy(key, ps)) == WithKey(key, k, ps)
  {
    if ps != [] {
      SortByStable(key, ps[1..]);
      forall k ensures WithKey(key, k, SortBy(key, ps)) == WithKey(key, k, ps) {
        InsertStable(key, k, ps[0], SortBy(key, ps[1..]));
      }
    }
  }

  /** `Reverse` puts the last element first. */
  lemma {:induction false} ReverseIndex(ps: seq<Phase>)
    ensures |Reverse(ps)| == |ps|
    ensures forall i | 0 <= i < |ps| :: Reverse(ps)[i] == ps[|ps| - 1 - i]
  {
    if ps != [] {
      ReverseIndex(ps[1..]);
    }
  }

  lemma {:induction false} ReverseConcat(a: seq<Phase>, b: seq<Phase>)
    ensures Reverse(a + b) == Reverse(b) + Reverse(a)
  {
    if a != [] {
      ReverseConcat(a[1..], b);
      assert (a + b)[1..] == a[1..] + b;
    } else {
      assert a + b == b;
    }
  }

  /** Reversing reverses the order of the elements of each key. */
  lemma {:induction false} ReverseWithKey(key: SortKey, k: int, ps: seq<Phase>)
    ensures WithKey(key, k, Reverse(ps)) == Reverse(WithKey(key, k, ps))
  {
    if ps != [] {
      var head := if Key(key, ps[0]) == k then [ps[0]] else [];
      ReverseWithKey(key, k, ps[1..]);
      WithKeyConcat(key, k, Reverse(ps[1..]), [ps[0]]);
      ReverseConcat(head, WithKey(key, k, ps[1..]));
      assert WithKey(key, k, [ps[0]]) == head by {
        assert [ps[0]][1..] == [];
      }
      assert Reverse(head) == head by {
        if head != [] { assert head[1..] == []; }
      }
    }
  }

  lemma {:induction false} ReverseNonNegative(ps: seq<Phase>)
    requires NonNegative(ps)
    ensures NonNegative(Reverse(ps))
  {
    ReverseIndex(ps);
  }

  lemma {:induction false} ReverseCounts(ps: seq<Phase>)
    ensures multiset(Reverse(ps)) == multiset(ps)
  {
    if ps != [] {
      ReverseCounts(ps[1..]);
      assert ps == [ps[0]] + ps[1..];
    }
  }

  /** Sorting keeps the total duration, the states, the length and the
      non-negativity of a list of phases. */
  lemma {:induction false} SortKeeps(key: SortKey, ps: seq<Phase>)
    ensures Sum(SortBy(key, ps)) == Sum(ps)
    ensures forall s :: StateCount(SortBy(key, ps), s) == StateCount(ps, s)
    ensures |SortBy(key, ps)| == |ps|
    ensures NonNegative(ps) ==> NonNegative(SortBy(key, ps))
    ensures Ordered(key, SortBy(key, ps))
  {
    var r := SortBy(key, ps);
    SortBySorts(key, ps);
    PermutationSum(r, ps);
    assert |multiset(r)| == |multiset(ps)|;
    if NonNegative(ps) {
      forall i | 0 <= i < |r| ensures r[i].duration >= 0 {
        assert r[i] in multiset(ps);
      }
    }
  }
}
