/** The order in which the stops of a route are listed: the comparator the
    store and the Maps link share, `Array.prototype.sort` as a stable
    insertion sort driven by that comparator, and the canonical order
    (start first, interior stops by `sequence`, end last, ties in input
    order) it produces when at most one stop ranks as start and at most
    one as end. */
module StopOrder {
  import opened Wrappers
  import opened Schema

  /** `addr.isStartPoint` is truthy. */
  predicate IsStart(a: Address) {
    a.isStartPoint == Some(true)
  }

  /** `addr.isEndPoint` is truthy. */
  predicate IsEnd(a: Address) {
    a.isEndPoint == Some(true)
  }

  /** `a.sequence || 0`. */
  function SeqKey(a: Address): int {
    a.sequence.GetOr(0)
  }

  /** 0 for a start, 2 for an end that is not also a start, 1 otherwise. */
  function Rank(a: Address): (r: int)
    ensures 0 <= r <= 2
  {
    if IsStart(a) then 0 else if IsEnd(a) then 2 else 1
  }

  /** Where a stop belongs: its rank, then (for interior stops) its sequence. */
  datatype Key = Key(rank: int, order: int)

  const StartKey := Key(0, 0)
  const EndKey := Key(2, 0)

  function KeyOf(a: Address): (k: Key)
    ensures k.rank == Rank(a)
    ensures Rank(a) == 0 <==> k == StartKey
    ensures Rank(a) == 2 <==> k == EndKey
  {
    Key(Rank(a), if Rank(a) == 1 then SeqKey(a) else 0)
  }

  /** The lexicographic order on keys. */
  predicate Before(k1: Key, k2: Key) {
    k1.rank < k2.rank || (k1.rank == k2.rank && k1.order < k2.order)
  }

  /** Two stops the comparator orders consistently: not two starts and
      not two ends. */
  predicate Compatible(a: Address, b: Address) {
    !(Rank(a) == 0 && Rank(b) == 0) && !(Rank(a) == 2 && Rank(b) == 2)
  }

  /** The sort callback of `getAddressesByRouteId` and `generateMapsUrl`.
      On compatible stops it is the key order: positive exactly when `b`
      belongs before `a`, negative exactly when `a` belongs before `b`. */
  function Compare(a: Address, b: Address): (c: int)
    ensures Compatible(a, b) ==> (c > 0 <==> Before(KeyOf(b), KeyOf(a)))
    ensures Compatible(a, b) ==> (c < 0 <==> Before(KeyOf(a), KeyOf(b)))
    ensures Rank(a) == 0 ==> c < 0
  {
    if IsStart(a) then -1
    else if IsStart(b) then 1
    else if IsEnd(a) then 1
    else if IsEnd(b) then -1
    else SeqKey(a) - SeqKey(b)
  }

  /** Inserts `x` after every element of `s` the comparator does not place
      after it (insertion from the back, so equal elements keep their
      order). */
  function Insert(s: seq<Address>, x: Address): (r: seq<Address>)
    ensures |r| == |s| + 1
  {
    if s == [] then [x]
    else if Compare(s[|s| - 1], x) > 0 then Insert(s[..|s| - 1], x) + [s[|s| - 1]]
    else s + [x]
  }

  /** `xs.sort(Compare)`: a stable sort by the source comparator. */
  function Sort(xs: seq<Address>): (r: seq<Address>)
    ensures |r| == |xs|
  {
    if xs == [] then [] else Insert(Sort(xs[..|xs| - 1]), xs[|xs| - 1])
  }

  /** The stops of `xs` with key `k`, in their order in `xs`. */
  function WithKey(xs: seq<Address>, k: Key): (r: seq<Address>)
    ensures |r| <= |xs|
  {
    if xs == [] then []
    else WithKey(xs[..|xs| - 1], k) + (if KeyOf(xs[|xs| - 1]) == k then [xs[|xs| - 1]] else [])
  }

  /** `WithKey` keeps exactly the stops of key `k`. */
  lemma {:induction false} WithKeyMember(xs: seq<Address>, k: Key, y: Address)
    ensures y in WithKey(xs, k) <==> y in xs && KeyOf(y) == k
  {
    if xs != [] {
      WithKeyMember(xs[..|xs| - 1], k, y);
      assert xs == xs[..|xs| - 1] + [xs[|xs| - 1]];
    }
  }

  /** At most one stop ranks as start and at most one as end. */
  predicate SingleRoles(xs: seq<Address>) {
    |WithKey(xs, StartKey)| <= 1 && |WithKey(xs, EndKey)| <= 1
  }

  /** Never a stop whose key belongs before an earlier one's. */
  predicate Sorted(xs: seq<Address>) {
    forall i, j :: 0 <= i < j < |xs| ==> !Before(KeyOf(xs[j]), KeyOf(xs[i]))
  }

  /** `out` lists the stops of `xs` sorted by key, stops of equal key in
      their order in `xs`. */
  ghost predicate IsCanonicalOrder(xs: seq<Address>, out: seq<Address>) {
    multiset(out) == multiset(xs)
    && Sorted(out)
    && forall k :: WithKey(out, k) == WithKey(xs, k)
  }

  /** The shape of a canonical stop list: the start (if any) first, the
      end (if any) last, interior stops by ascending sequence. */
  predicate StartInteriorEnd(out: seq<Address>) {
    (forall j :: 0 <= j < |out| && Rank(out[j]) == 0 ==> j == 0)
    && (forall j :: 0 <= j < |out| && Rank(out[j]) == 2 ==> j == |out| - 1)
    && (forall i, j :: 0 <= i < j < |out| && Rank(out[i]) == 1 && Rank(out[j]) == 1
          ==> SeqKey(out[i]) <= SeqKey(out[j]))
  }

  lemma {:induction false} WithKeyAppend(xs: seq<Address>, ys: seq<Address>, k: Key)
    ensures WithKey(xs + ys, k) == WithKey(xs, k) + WithKey(ys, k)
    decreases |ys|
  {
    if ys != [] {
      var zs := xs + ys;
      assert zs[..|zs| - 1] == xs + ys[..|ys| - 1];
      WithKeyAppend(xs, ys[..|ys| - 1], k);
    } else {
      assert xs + ys == xs;
    }
  }

  /** A non-empty list has stops of the key of its first stop. */
  lemma WithKeyAllEmpty(xs: seq<Address>)
    ensures (forall k :: WithKey(xs, k) == []) ==> xs == []
  {
    if xs != [] {
      WithKeyMember(xs, KeyOf(xs[0]), xs[0]);
    }
  }

  /** Two stops of one key at different positions make the key occur twice. */
  lemma WithKeyTwice(xs: seq<Address>, i: int, j: int)
    requires 0 <= i < j < |xs| && KeyOf(xs[i]) == KeyOf(xs[j])
    ensures |WithKey(xs, KeyOf(xs[j]))| >= 2
  {
    var k := KeyOf(xs[j]);
    assert xs[..j + 1][..j] == xs[..j];
    assert xs[i] in xs[..j];
    WithKeyMember(xs[..j], k, xs[i]);
    assert |WithKey(xs[..j + 1], k)| >= 2;
    WithKeyAppend(xs[..j + 1], xs[j + 1..], k);
    assert xs[..j + 1] + xs[j + 1..] == xs;
  }

  /** Inserting adds `x` and nothing else. */
  lemma {:induction false} InsertMultiset(s: seq<Address>, x: Address)
    ensures multiset(Insert(s, x)) == multiset(s) + multiset{x}
  {
    if s != [] && Compare(s[|s| - 1], x) > 0 {
      InsertMultiset(s[..|s| - 1], x);
      assert s == s[..|s| - 1] + [s[|s| - 1]];
    }
  }

  /** Inserting a stop compatible with every stop of `s` appends it to the
      stops of its key and leaves the others alone. */
  lemma {:induction false} InsertWithKey(s: seq<Address>, x: Address, k: Key)
    requires forall i :: 0 <= i < |s| ==> Compatible(s[i], x)
    ensures WithKey(Insert(s, x), k) == WithKey(s, k) + (if KeyOf(x) == k then [x] else [])
  {
    if s != [] {
      var init, last := s[..|s| - 1], s[|s| - 1];
      if Compare(last, x) > 0 {
        assert KeyOf(last) != KeyOf(x);
        InsertWithKey(init, x, k);
        WithKeyAppend(Insert(init, x), [last], k);
      } else {
        assert (s + [x])[..|s|] == s;
      }
    }
  }

  /** Inserting a compatible stop into a sorted list keeps it sorted. */
  lemma {:induction false} InsertSorted(s: seq<Address>, x: Address)
    requires Sorted(s)
    requires forall i :: 0 <= i < |s| ==> Compatible(s[i], x)
    ensures Sorted(Insert(s, x))
  {
    if s != [] {
      var init, last := s[..|s| - 1], s[|s| - 1];
      if Compare(last, x) > 0 {
        forall i | 0 <= i < |init| ensures Compatible(init[i], x) {
          assert init[i] == s[i];
        }
        InsertSorted(init, x);
        InsertMultiset(init, x);
        var r := Insert(init, x);
        forall i | 0 <= i < |r| ensures !Before(KeyOf(last), KeyOf(r[i])) {
          assert r[i] in multiset(r);
          assert r[i] in init || r[i] == x;
        }
        SortedSnoc(r, last);
      } else {
        forall i | 0 <= i < |s| ensures !Before(KeyOf(x), KeyOf(s[i])) {
          assert !Before(KeyOf(last), KeyOf(s[i]));
        }
        SortedSnoc(s, x);
      }
    }
  }

  /** A stop whose key belongs before none of a sorted list's can follow it. */
  lemma SortedSnoc(s: seq<Address>, y: Address)
    requires Sorted(s)
    requires forall i :: 0 <= i < |s| ==> !Before(KeyOf(y), KeyOf(s[i]))
    ensures Sorted(s + [y])
  {
    var t := s + [y];
    forall i, j | 0 <= i < j < |t| ensures !Before(KeyOf(t[j]), KeyOf(t[i])) {
      assert t[i] == s[i];
      if j < |s| {
        assert t[j] == s[j];
      }
    }
  }

  /** Whatever the flags, sorting returns every stop exactly once. */
  lemma {:induction false} SortPermutes(xs: seq<Address>)
    ensures multiset(Sort(xs)) == multiset(xs)
  {
    if xs != [] {
      var init, x := xs[..|xs| - 1], xs[|xs| - 1];
      calc {
        multiset(Sort(xs));
        multiset(Insert(Sort(init), x));
        { InsertMultiset(Sort(init), x); }
        multiset(Sort(init)) + multiset{x};
        { SortPermutes(init); }
        multiset(init) + multiset{x};
        { assert xs == init + [x]; }
        multiset(xs);
      }
    }
  }

  /** Under single roles, `Sort` produces the canonical order. */
  lemma {:induction false} SortIsCanonical(xs: seq<Address>)
    requires SingleRoles(xs)
    ensures IsCanonicalOrder(xs, Sort(xs))
  {
    if xs != [] {
      var init, x := xs[..|xs| - 1], xs[|xs| - 1];
      assert xs == init + [x];
      forall k ensures WithKey(xs, k) == WithKey(init, k) + (if KeyOf(x) == k then [x] else []) {
      }
      SortIsCanonical(init);
      var s := Sort(init);
      forall i | 0 <= i < |s| ensures Compatible(s[i], x) {
        WithKeyMember(s, KeyOf(s[i]), s[i]);
        WithKeyMember(init, KeyOf(s[i]), s[i]);
      }
      InsertMultiset(s, x);
      InsertSorted(s, x);
      forall k ensures WithKey(Sort(xs), k) == WithKey(xs, k) {
        InsertWithKey(s, x, k);
      }
    }
  }

  /** The last stop of a sorted list has the greatest key. */
  lemma SortedLastIsMax(o: seq<Address>, y: Address)
    requires Sorted(o) && y in o
    ensures !Before(KeyOf(o[|o| - 1]), KeyOf(y))
  {
    var i :| 0 <= i < |o| && o[i] == y;
    if i < |o| - 1 {
      assert !Before(KeyOf(o[|o| - 1]), KeyOf(o[i]));
    }
  }

  /** Dropping the last stop drops the last element of its key's list. */
  lemma WithKeyDropLast(o: seq<Address>, k: Key)
    requires o != []
    ensures KeyOf(o[|o| - 1]) == k ==> WithKey(o, k) == WithKey(o[..|o| - 1], k) + [o[|o| - 1]]
    ensures KeyOf(o[|o| - 1]) != k ==> WithKey(o, k) == WithKey(o[..|o| - 1], k)
  {
  }

  /** Sorted lists with the same stops per key end with stops of the same key. */
  lemma LastKeysAgree(o1: seq<Address>, o2: seq<Address>)
    requires o1 != [] && o2 != []
    requires Sorted(o1) && Sorted(o2)
    requires WithKey(o1, KeyOf(o1[|o1| - 1])) == WithKey(o2, KeyOf(o1[|o1| - 1]))
    requires WithKey(o1, KeyOf(o2[|o2| - 1])) == WithKey(o2, KeyOf(o2[|o2| - 1]))
    ensures KeyOf(o1[|o1| - 1]) == KeyOf(o2[|o2| - 1])
  {
    var a, b := o1[|o1| - 1], o2[|o2| - 1];
    WithKeyMember(o2, KeyOf(b), b);
    WithKeyMember(o1, KeyOf(b), b);
    WithKeyMember(o1, KeyOf(a), a);
    WithKeyMember(o2, KeyOf(a), a);
    SortedLastIsMax(o1, b);
    SortedLastIsMax(o2, a);
  }

  /** Sorted lists with the same stops per key end with the same stop. */
  lemma LastsAgree(o1: seq<Address>, o2: seq<Address>)
    requires o1 != [] && o2 != []
    requires Sorted(o1) && Sorted(o2)
    requires WithKey(o1, KeyOf(o1[|o1| - 1])) == WithKey(o2, KeyOf(o1[|o1| - 1]))
    requires WithKey(o1, KeyOf(o2[|o2| - 1])) == WithKey(o2, KeyOf(o2[|o2| - 1]))
    ensures o1[|o1| - 1] == o2[|o2| - 1]
  {
    LastKeysAgree(o1, o2);
    var k := KeyOf(o1[|o1| - 1]);
    WithKeyDropLast(o1, k);
    WithKeyDropLast(o2, k);
    var w := WithKey(o1, k);
    assert w[|w| - 1] == o1[|o1| - 1];
    assert w[|w| - 1] == o2[|o2| - 1];
  }

  /** Dropping a common last stop keeps the per-key lists equal. */
  lemma InitsAgree(o1: seq<Address>, o2: seq<Address>, k: Key)
    requires o1 != [] && o2 != [] && o1[|o1| - 1] == o2[|o2| - 1]
    requires WithKey(o1, k) == WithKey(o2, k)
    ensures WithKey(o1[..|o1| - 1], k) == WithKey(o2[..|o2| - 1], k)
  {
    WithKeyDropLast(o1, k);
    WithKeyDropLast(o2, k);
    var w1, w2 := WithKey(o1[..|o1| - 1], k), WithKey(o2[..|o2| - 1], k);
    if KeyOf(o1[|o1| - 1]) == k {
      assert w1 == WithKey(o1, k)[..|w1|];
      assert w2 == WithKey(o2, k)[..|w2|];
    }
  }

  /** The canonical order is unique: a sorted list is determined by the
      stops of each key, in order. */
  lemma {:induction false} CanonicalUnique(o1: seq<Address>, o2: seq<Address>)
    requires Sorted(o1) && Sorted(o2)
    requires forall k :: WithKey(o1, k) == WithKey(o2, k)
    ensures o1 == o2
    decreases |o1| + |o2|
  {
    if o1 == [] {
      WithKeyAllEmpty(o2);
    } else if o2 == [] {
      WithKeyAllEmpty(o1);
    } else {
      assert WithKey(o1, KeyOf(o1[|o1| - 1])) == WithKey(o2, KeyOf(o1[|o1| - 1]));
      assert WithKey(o1, KeyOf(o2[|o2| - 1])) == WithKey(o2, KeyOf(o2[|o2| - 1]));
      LastsAgree(o1, o2);
      var init1, init2 := o1[..|o1| - 1], o2[..|o2| - 1];
      forall k ensures WithKey(init1, k) == WithKey(init2, k) {
        InitsAgree(o1, o2, k);
      }
      CanonicalUnique(init1, init2);
      assert o1 == init1 + [o1[|o1| - 1]] && o2 == init2 + [o2[|o2| - 1]];
    }
  }

  /** Every canonical order of `xs` is `Sort(xs)`. */
  lemma CanonicalIsSort(xs: seq<Address>, out: seq<Address>)
    requires SingleRoles(xs)
    requires IsCanonicalOrder(xs, out)
    ensures out == Sort(xs)
  {
    SortIsCanonical(xs);
    CanonicalUnique(out, Sort(xs));
  }

  /** Sorting twice sorts once. */
  lemma SortIdempotent(xs: seq<Address>)
    requires SingleRoles(xs)
    ensures Sort(Sort(xs)) == Sort(xs)
  {
    SortIsCanonical(xs);
    var s := Sort(xs);
    assert SingleRoles(s) by {
      assert WithKey(s, StartKey) == WithKey(xs, StartKey);
      assert WithKey(s, EndKey) == WithKey(xs, EndKey);
    }
    SortIsCanonical(s);
    CanonicalUnique(Sort(s), s);
  }

  /** A list already in canonical order is left as it is. */
  lemma SortOfSorted(xs: seq<Address>)
    requires SingleRoles(xs) && Sorted(xs)
    ensures Sort(xs) == xs
  {
    SortIsCanonical(xs);
    CanonicalUnique(Sort(xs), xs);
  }

  lemma {:induction false} WithKeyNone(xs: seq<Address>, k: Key)
    requires forall i :: 0 <= i < |xs| ==> KeyOf(xs[i]) != k
    ensures WithKey(xs, k) == []
  {
    if xs != [] {
      WithKeyNone(xs[..|xs| - 1], k);
    }
  }

  lemma {:induction false} WithKeyAtMostOne(xs: seq<Address>, k: Key, p: int)
    requires forall i :: 0 <= i < |xs| && KeyOf(xs[i]) == k ==> i == p
    ensures |WithKey(xs, k)| <= 1
  {
    if xs != [] {
      var init := xs[..|xs| - 1];
      if KeyOf(xs[|xs| - 1]) == k {
        WithKeyNone(init, k);
      } else {
        WithKeyAtMostOne(init, k, p);
      }
    }
  }

  /** The converse of `SortedShape`: a list of the start/interior/end
      shape has single roles, is sorted, and sorting leaves it as it is. */
  lemma ShapedIsSorted(xs: seq<Address>)
    requires StartInteriorEnd(xs)
    ensures SingleRoles(xs) && Sorted(xs) && Sort(xs) == xs
  {
    WithKeyAtMostOne(xs, StartKey, 0);
    WithKeyAtMostOne(xs, EndKey, |xs| - 1);
    SortOfSorted(xs);
  }

  /** A sorted list under single roles has the start/interior/end shape. */
  lemma SortedShape(out: seq<Address>)
    requires Sorted(out) && SingleRoles(out)
    ensures StartInteriorEnd(out)
  {
    forall j | 0 <= j < |out| && Rank(out[j]) == 0 ensures j == 0 {
      if j > 0 {
        WithKeyTwice(out, 0, j);
      }
    }
    forall j | 0 <= j < |out| && Rank(out[j]) == 2 ensures j == |out| - 1 {
      if j < |out| - 1 {
        WithKeyTwice(out, j, |out| - 1);
      }
    }
  }

  /** The stop list as read back: start first, interior stops by ascending
      sequence, end last; a start or end present in the input is at the
      front or the back; stops of equal key keep their input order. */
  lemma SortShape(xs: seq<Address>)
    requires SingleRoles(xs)
    ensures StartInteriorEnd(Sort(xs))
    ensures forall i :: 0 <= i < |xs| && Rank(xs[i]) == 0 ==> Sort(xs)[0] == xs[i]
    ensures forall i :: 0 <= i < |xs| && Rank(xs[i]) == 2 ==> Sort(xs)[|xs| - 1] == xs[i]
    ensures forall k :: WithKey(Sort(xs), k) == WithKey(xs, k)
  {
    SortIsCanonical(xs);
    var s := Sort(xs);
    assert SingleRoles(s) by {
      assert WithKey(s, StartKey) == WithKey(xs, StartKey);
      assert WithKey(s, EndKey) == WithKey(xs, EndKey);
    }
    SortedShape(s);
    forall i | 0 <= i < |xs| && Rank(xs[i]) != 1 ensures s[if Rank(xs[i]) == 0 then 0 else |xs| - 1] == xs[i] {
      WithKeyMember(xs, KeyOf(xs[i]), xs[i]);
      WithKeyMember(s, KeyOf(xs[i]), xs[i]);
    }
  }

  /** `addresses.find(addr => addr.isStartPoint)`. */
  function FirstStart(xs: seq<Address>): (r: Option<Address>)
    ensures r.Some? <==> exists i :: 0 <= i < |xs| && IsStart(xs[i])
    ensures r.Some? ==> exists i :: 0 <= i < |xs| && xs[i] == r.value && IsStart(r.value)
                                   && forall j :: 0 <= j < i ==> !IsStart(xs[j])
  {
    if xs == [] then None
    else if IsStart(xs[0]) then Some(xs[0])
    else
      var r := FirstStart(xs[1..]);
      assert r.Some? ==> exists i :: 0 <= i < |xs| - 1 && xs[1..][i] == r.value && IsStart(r.value)
                                     && forall j :: 0 <= j < i ==> !IsStart(xs[1..][j]);
      r
  }

  /** `addresses.find(addr => addr.isEndPoint)`. */
  function FirstEnd(xs: seq<Address>): (r: Option<Address>)
    ensures r.Some? <==> exists i :: 0 <= i < |xs| && IsEnd(xs[i])
    ensures r.Some? ==> exists i :: 0 <= i < |xs| && xs[i] == r.value && IsEnd(r.value)
                                   && forall j :: 0 <= j < i ==> !IsEnd(xs[j])
  {
    if xs == [] then None
    else if IsEnd(xs[0]) then Some(xs[0])
    else
      var r := FirstEnd(xs[1..]);
      assert r.Some? ==> exists i :: 0 <= i < |xs| - 1 && xs[1..][i] == r.value && IsEnd(r.value)
                                     && forall j :: 0 <= j < i ==> !IsEnd(xs[1..][j]);
      r
  }
}
