/** The ascending sort of candidates by activity stamp. The source calls
    Python's `list.sort` with the stamp as key: a stable sort, so entries
    with equal stamps keep their input order. It is modelled by a stable
    insertion sort, proved equal to every stable sort of the same input. */
module StableSort {
  import opened Snapshot

  predicate Sorted(s: seq<Entry>) {
    forall i, j :: 0 <= i < j < |s| ==> s[i].Stamp() <= s[j].Stamp()
  }

  /** The entries of `s` whose stamp is `v`, in their order in `s`. */
  function WithStamp(s: seq<Entry>, v: int): seq<Entry> {
    if |s| == 0 then []
    else (if s[0].Stamp() == v then [s[0]] else []) + WithStamp(s[1..], v)
  }

  /** `r` is a stable ascending sort of `s`: sorted, and for every stamp the
      entries carrying it appear in the same order as in `s`. */
  ghost predicate IsStableSortOf(r: seq<Entry>, s: seq<Entry>) {
    Sorted(r) && forall v :: WithStamp(r, v) == WithStamp(s, v)
  }

  /** A sorted list stays sorted when an entry no newer than all of its
      entries is put in front. */
  lemma SortedCons(x: Entry, t: seq<Entry>)
    requires Sorted(t)
    requires forall y :: y in t ==> x.Stamp() <= y.Stamp()
    ensures Sorted([x] + t)
  {
    forall i, j | 0 <= i < j < |[x] + t| ensures ([x] + t)[i].Stamp() <= ([x] + t)[j].Stamp() {
      if i == 0 {
        assert ([x] + t)[j] == t[j - 1];
        assert t[j - 1] in t;
      }
    }
  }

  /** The head of a sorted list is no newer than any of its entries. */
  lemma SortedHeadLeast(s: seq<Entry>)
    requires Sorted(s) && s != []
    ensures forall y :: y in s ==> s[0].Stamp() <= y.Stamp()
  {
    forall y | y in s ensures s[0].Stamp() <= y.Stamp() {
      var k :| 0 <= k < |s| && s[k] == y;
    }
  }

  /** Inserts `e` before the first entry whose stamp is not smaller. */
  function Insert(e: Entry, s: seq<Entry>): (r: seq<Entry>)
    ensures |r| == |s| + 1
  {
    if |s| == 0 || e.Stamp() <= s[0].Stamp() then [e] + s
    else [s[0]] + Insert(e, s[1..])
  }

  lemma {:induction false} InsertPermutes(e: Entry, s: seq<Entry>)
    ensures multiset(Insert(e, s)) == multiset(s) + multiset{e}
  {
    if s != [] && e.Stamp() > s[0].Stamp() {
      InsertPermutes(e, s[1..]);
      assert s == [s[0]] + s[1..];
    }
  }

  /** An entry of an insertion result is the inserted one or was there. */
  lemma InsertMember(e: Entry, s: seq<Entry>, y: Entry)
    requires y in Insert(e, s)
    ensures y == e || y in s
  {
    InsertPermutes(e, s);
    assert y in multiset(Insert(e, s));
  }

  lemma TailMember(s: seq<Entry>, y: Entry)
    requires |s| > 0 && y in s[1..]
    ensures y in s
  {
    var k :| 0 <= k < |s[1..]| && s[1..][k] == y;
    assert s[k + 1] == y;
  }

  lemma {:induction false} InsertSorted(e: Entry, s: seq<Entry>)
    requires Sorted(s)
    ensures Sorted(Insert(e, s))
  {
    if |s| == 0 || e.Stamp() <= s[0].Stamp() {
      if |s| > 0 {
        SortedHeadLeast(s);
      }
      SortedCons(e, s);
    } else {
      var rest := Insert(e, s[1..]);
      assert Sorted(s[1..]);
      InsertSorted(e, s[1..]);
      SortedHeadLeast(s);
      forall y | y in rest ensures s[0].Stamp() <= y.Stamp() {
        InsertMember(e, s[1..], y);
        if y != e {
          TailMember(s, y);
        }
      }
      SortedCons(s[0], rest);
    }
  }

  lemma MultisetCons(s: seq<Entry>)
    requires |s| > 0
    ensures multiset(s) == multiset{s[0]} + multiset(s[1..])
  {
    assert s == [s[0]] + s[1..];
  }

  function SortByActivity(s: seq<Entry>): (r: seq<Entry>)
    ensures |r| == |s|
    ensures multiset(r) == multiset(s)
    ensures Sorted(r)
  {
    if |s| == 0 then []
    else
      var sorted := SortByActivity(s[1..]);
      InsertPermutes(s[0], sorted);
      InsertSorted(s[0], sorted);
      MultisetCons(s);
      Insert(s[0], sorted)
  }

  lemma WithStampCons(x: Entry, t: seq<Entry>, v: int)
    ensures WithStamp([x] + t, v) == (if x.Stamp() == v then [x] else []) + WithStamp(t, v)
  {
    assert ([x] + t)[1..] == t;
  }

  lemma {:induction false} WithStampAppend(a: seq<Entry>, b: seq<Entry>, v: int)
    ensures WithStamp(a + b, v) == WithStamp(a, v) + WithStamp(b, v)
  {
    if a == [] {
      assert a + b == b;
    } else {
      assert a + b == [a[0]] + (a[1..] + b);
      WithStampCons(a[0], a[1..] + b, v);
      WithStampAppend(a[1..], b, v);
      assert a == [a[0]] + a[1..];
      WithStampCons(a[0], a[1..], v);
    }
  }

  lemma {:induction false} WithStampMembers(s: seq<Entry>, v: int, x: Entry)
    ensures x in WithStamp(s, v) <==> x in s && x.Stamp() == v
  {
    if s != [] {
      WithStampMembers(s[1..], v, x);
      assert s == [s[0]] + s[1..];
    }
  }

  /** Insertion places `e` before every entry of equal stamp and leaves the
      other stamps' orders alone. */
  lemma {:induction false} InsertWithStamp(e: Entry, s: seq<Entry>, v: int)
    ensures WithStamp(Insert(e, s), v) ==
      (if e.Stamp() == v then [e] else []) + WithStamp(s, v)
  {
    if |s| == 0 || e.Stamp() <= s[0].Stamp() {
      WithStampCons(e, s, v);
    } else {
      InsertWithStamp(e, s[1..], v);
      WithStampCons(s[0], Insert(e, s[1..]), v);
      assert s == [s[0]] + s[1..];
      WithStampCons(s[0], s[1..], v);
      // `e` is strictly newer than `s[0]`, so at most one of them has stamp v.
      assert s[0].Stamp() != v || e.Stamp() != v;
    }
  }

  /** The insertion sort is stable. */
  lemma {:induction false} SortIsStable(s: seq<Entry>)
    ensures IsStableSortOf(SortByActivity(s), s)
  {
    forall v ensures WithStamp(SortByActivity(s), v) == WithStamp(s, v) {
      SortKeepsStampOrder(s, v);
    }
  }

  lemma {:induction false} SortKeepsStampOrder(s: seq<Entry>, v: int)
    ensures WithStamp(SortByActivity(s), v) == WithStamp(s, v)
  {
    if s != [] {
      SortKeepsStampOrder(s[1..], v);
      InsertWithStamp(s[0], SortByActivity(s[1..]), v);
    }
  }

  lemma HeadStampClassNonEmpty(s: seq<Entry>)
    ensures s != [] ==> WithStamp(s, s[0].Stamp()) != []
  {
  }

  /** Two sorted lists with the same stamp classes start with the same
      entry: each head is in the other list, so the head stamps are equal,
      and each head opens its class. */
  lemma SameHead(a: seq<Entry>, b: seq<Entry>)
    requires Sorted(a) && Sorted(b) && a != [] && b != []
    requires forall v :: WithStamp(a, v) == WithStamp(b, v)
    ensures a[0] == b[0]
  {
    var ka, kb := a[0].Stamp(), b[0].Stamp();
    WithStampMembers(a, ka, a[0]);
    assert a[0] in WithStamp(b, ka);
    WithStampMembers(b, ka, a[0]);
    WithStampMembers(b, kb, b[0]);
    assert b[0] in WithStamp(a, kb);
    WithStampMembers(a, kb, b[0]);
    SortedHeadLeast(a);
    SortedHeadLeast(b);
    assert ka == kb;
    assert WithStamp(a, ka)[0] == a[0];
    assert WithStamp(b, ka)[0] == b[0];
  }

  /** Dropping a common head keeps the stamp classes equal. */
  lemma TailsAgree(a: seq<Entry>, b: seq<Entry>, v: int)
    requires a != [] && b != [] && a[0] == b[0]
    requires WithStamp(a, v) == WithStamp(b, v)
    ensures WithStamp(a[1..], v) == WithStamp(b[1..], v)
  {
    if a[0].Stamp() == v {
      assert WithStamp(a[1..], v) == WithStamp(a, v)[1..];
      assert WithStamp(b[1..], v) == WithStamp(b, v)[1..];
    } else {
      assert WithStamp(a[1..], v) == WithStamp(a, v);
      assert WithStamp(b[1..], v) == WithStamp(b, v);
    }
  }

  /** A stable sort is unique: two sorted lists that agree on the order of
      every stamp class are equal. */
  lemma {:induction false} StableSortsAgree(a: seq<Entry>, b: seq<Entry>)
    requires Sorted(a) && Sorted(b)
    requires forall v :: WithStamp(a, v) == WithStamp(b, v)
    ensures a == b
  {
    if a == [] && b == [] {
    } else if a == [] || b == [] {
      HeadStampClassNonEmpty(a);
      HeadStampClassNonEmpty(b);
      assert false;
    } else {
      SameHead(a, b);
      forall v ensures WithStamp(a[1..], v) == WithStamp(b[1..], v) {
        TailsAgree(a, b, v);
      }
      assert Sorted(a[1..]) && Sorted(b[1..]);
      StableSortsAgree(a[1..], b[1..]);
      assert a == [a[0]] + a[1..] && b == [b[0]] + b[1..];
    }
  }

  /** Whatever stable sort the platform's runtime uses, it yields exactly
      SortByActivity. */
  lemma StableSortIsSortByActivity(s: seq<Entry>, r: seq<Entry>)
    requires IsStableSortOf(r, s)
    ensures r == SortByActivity(s)
  {
    SortIsStable(s);
    StableSortsAgree(r, SortByActivity(s));
  }
}
