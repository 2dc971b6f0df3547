/**
 The sort the table applies: a stable sort under the column comparator.
 Since ECMAScript 2019 `Array.prototype.sort` is required to be stable, so
 with a consistent comparator its result is fixed: sorted, with tied rows in
 their input order. `Sort` is an insertion sort with that result, and
 `SortUnique` shows no other sequence has both properties.
 */
module StableSort {
  import opened Seqs
  import opened Invoices

  /** Every row may stand before every later row. */
  predicate Sorted(k: SortKey, d: Direction, s: seq<Invoice>)
  {
    forall i, j :: 0 <= i < j < |s| ==> InOrder(k, d, s[i], s[j])
  }

  function SameCell(k: SortKey, v: Field): Invoice -> bool
  {
    x => FieldOf(k, x) == v
  }

  /** The rows whose cell in column `k` is `v`, in order: one group of tied rows. */
  function Ties(s: seq<Invoice>, k: SortKey, v: Field): seq<Invoice>
  {
    Keep(s, SameCell(k, v))
  }

  /** Places `x` before the first row that the comparator does not put strictly ahead of it. */
  function Insert(k: SortKey, d: Direction, x: Invoice, t: seq<Invoice>): (r: seq<Invoice>)
    ensures multiset(r) == multiset{x} + multiset(t)
  {
    if |t| == 0 then [x]
    else if Comparator(k, d, t[0], x) < 0 then
      assert t == [t[0]] + t[1..];
      [t[0]] + Insert(k, d, x, t[1..])
    else [x] + t
  }

  function Sort(k: SortKey, d: Direction, s: seq<Invoice>): (r: seq<Invoice>)
    ensures multiset(r) == multiset(s)
  {
    if |s| == 0 then []
    else
      assert s == [s[0]] + s[1..];
      Insert(k, d, s[0], Sort(k, d, s[1..]))
  }

  lemma {:induction false} InsertSorted(k: SortKey, d: Direction, x: Invoice, t: seq<Invoice>)
    requires Sorted(k, d, t)
    ensures Sorted(k, d, Insert(k, d, x, t))
  {
    if |t| == 0 {
    } else if Comparator(k, d, t[0], x) < 0 {
      var rest := Insert(k, d, x, t[1..]);
      SortedTail(k, d, t);
      InsertSorted(k, d, x, t[1..]);
      ComparatorOrder(k, d, t[0], x);
      SortedHead(k, d, t);
      InsertMembers(k, d, x, t[1..]);
      assert forall j :: 0 <= j < |rest| ==> InOrder(k, d, t[0], rest[j]) by {
        forall j | 0 <= j < |rest|
          ensures InOrder(k, d, t[0], rest[j])
        {
          assert rest[j] in rest;
        }
      }
      ConsSorted(k, d, t[0], rest);
      assert Insert(k, d, x, t) == [t[0]] + rest;
    } else {
      ComparatorOrder(k, d, x, t[0]);
      SortedHead(k, d, t);
      assert forall j :: 0 <= j < |t| ==> InOrder(k, d, x, t[j]) by {
        forall j | 0 <= j < |t|
          ensures InOrder(k, d, x, t[j])
        {
          if j > 0 {
            assert t[j] in t[1..];
            InOrderTransitive(k, d, x, t[0], t[j]);
          }
        }
      }
      ConsSorted(k, d, x, t);
      InsertFront(k, d, x, t);
    }
  }

  /** Only `x` and the rows of `t` come out of inserting `x` into `t`. */
  lemma InsertMembers(k: SortKey, d: Direction, x: Invoice, t: seq<Invoice>)
    ensures forall y :: y in Insert(k, d, x, t) ==> y == x || y in t
  {
    forall y | y in Insert(k, d, x, t)
      ensures y == x || y in t
    {
      assert y in multiset(Insert(k, d, x, t));
    }
  }

  /** The head of a sorted list may stand before every other row. */
  lemma SortedHead(k: SortKey, d: Direction, t: seq<Invoice>)
    requires |t| > 0 && Sorted(k, d, t)
    ensures forall y :: y in t[1..] ==> InOrder(k, d, t[0], y)
  {
    forall y | y in t[1..]
      ensures InOrder(k, d, t[0], y)
    {
      var m :| 0 <= m < |t| - 1 && t[1..][m] == y;
      assert t[m + 1] == y;
    }
  }

  /** A row that may stand before every row of a sorted list keeps it sorted in front. */
  lemma ConsSorted(k: SortKey, d: Direction, a: Invoice, r: seq<Invoice>)
    requires Sorted(k, d, r)
    requires forall j :: 0 <= j < |r| ==> InOrder(k, d, a, r[j])
    ensures Sorted(k, d, [a] + r)
  {
    var c := [a] + r;
    forall i, j | 0 <= i < j < |c|
      ensures InOrder(k, d, c[i], c[j])
    {
      assert c[j] == r[j - 1];
      if i > 0 {
        assert c[i] == r[i - 1];
      }
    }
  }

  /** The sort output is ordered by the column in the requested direction. */
  lemma {:induction false} SortSorted(k: SortKey, d: Direction, s: seq<Invoice>)
    ensures Sorted(k, d, Sort(k, d, s))
  {
    if |s| > 0 {
      SortSorted(k, d, s[1..]);
      InsertSorted(k, d, s[0], Sort(k, d, s[1..]));
    }
  }

  /** Inserting `x` does not reorder it against rows it ties with. */
  lemma {:induction false} InsertTies(k: SortKey, d: Direction, x: Invoice, t: seq<Invoice>, v: Field)
    ensures Ties(Insert(k, d, x, t), k, v) == Ties([x] + t, k, v)
  {
    var p := SameCell(k, v);
    if |t| > 0 && Comparator(k, d, t[0], x) < 0 {
      var rest := Insert(k, d, x, t[1..]);
      InsertTies(k, d, x, t[1..], v);
      ComparatorTie(k, d, t[0], x);
      KeepHop(t[0], x, t[1..], rest, p);
      assert [t[0]] + t[1..] == t;
    }
  }

  /** Tied rows leave the sort in the order they entered it. */
  lemma {:induction false} SortStable(k: SortKey, d: Direction, s: seq<Invoice>, v: Field)
    ensures Ties(Sort(k, d, s), k, v) == Ties(s, k, v)
  {
    if |s| > 0 {
      SortStable(k, d, s[1..], v);
      InsertTies(k, d, s[0], Sort(k, d, s[1..]), v);
      KeepConcat([s[0]], Sort(k, d, s[1..]), SameCell(k, v));
      KeepConcat([s[0]], s[1..], SameCell(k, v));
      assert s == [s[0]] + s[1..];
    }
  }

  /** Sorting an already sorted sequence changes nothing. */
  lemma {:induction false} SortOfSorted(k: SortKey, d: Direction, s: seq<Invoice>)
    requires Sorted(k, d, s)
    ensures Sort(k, d, s) == s
  {
    if |s| > 0 {
      SortedTail(k, d, s);
      SortOfSorted(k, d, s[1..]);
      if |s| > 1 {
        assert InOrder(k, d, s[0], s[1]);
        InOrderNotAhead(k, d, s[0], s[1]);
      }
      InsertFront(k, d, s[0], s[1..]);
      assert Sort(k, d, s) == Insert(k, d, s[0], s[1..]);
      assert s == [s[0]] + s[1..];
    }
  }

  /** A row no later than the head of the list goes in front of it. */
  lemma InsertFront(k: SortKey, d: Direction, x: Invoice, t: seq<Invoice>)
    requires |t| == 0 || Comparator(k, d, t[0], x) >= 0
    ensures Insert(k, d, x, t) == [x] + t
  {
  }

  lemma SortedTail(k: SortKey, d: Direction, s: seq<Invoice>)
    requires |s| > 0 && Sorted(k, d, s)
    ensures Sorted(k, d, s[1..])
  {
    forall i, j | 0 <= i < j < |s| - 1
      ensures InOrder(k, d, s[1..][i], s[1..][j])
    {
      assert s[1..][i] == s[i + 1] && s[1..][j] == s[j + 1];
    }
  }

  /** Sorting twice by the same column and direction is sorting once. */
  lemma SortIdempotent(k: SortKey, d: Direction, s: seq<Invoice>)
    ensures Sort(k, d, Sort(k, d, s)) == Sort(k, d, s)
  {
    SortSorted(k, d, s);
    SortOfSorted(k, d, Sort(k, d, s));
  }

  /** Dropping the first row removes it from its own tie group and leaves the other groups alone. */
  lemma TiesOfTail(k: SortKey, s: seq<Invoice>, v: Field)
    requires |s| > 0
    ensures Ties(s[1..], k, v) == if FieldOf(k, s[0]) == v then Ties(s, k, v)[1..] else Ties(s, k, v)
  {
  }

  /** A row belongs to its own tie group. */
  lemma FirstInItsTies(k: SortKey, s: seq<Invoice>)
    ensures |s| > 0 ==> Ties(s, k, FieldOf(k, s[0])) != []
  {
  }

  /**
   Two sorted sequences with the same tie groups are equal. So any stable sort
   under this comparator (in particular JavaScript's) yields `Sort`'s output.
   */
  lemma {:induction false} SortUnique(k: SortKey, d: Direction, a: seq<Invoice>, b: seq<Invoice>)
    requires Sorted(k, d, a) && Sorted(k, d, b)
    requires forall v :: Ties(a, k, v) == Ties(b, k, v)
    ensures a == b
    decreases |a| + |b|
  {
    if |a| == 0 || |b| == 0 {
      FirstInItsTies(k, a);
      FirstInItsTies(k, b);
    } else {
      var va := FieldOf(k, a[0]);
      var vb := FieldOf(k, b[0]);
      if va != vb {
        assert b[0] in Ties(b, k, vb);
        assert b[0] in Ties(a, k, vb);
        var j :| 0 <= j < |a| && a[j] == b[0];
        assert a[0] in Ties(a, k, va);
        assert a[0] in Ties(b, k, va);
        var i :| 0 <= i < |b| && b[i] == a[0];
        InOrderAntisymmetric(k, d, a[0], b[0]);
        assert false;
      }
      assert Ties(a, k, va)[0] == a[0];
      assert Ties(b, k, va)[0] == b[0];
      forall v
        ensures Ties(a[1..], k, v) == Ties(b[1..], k, v)
      {
        TiesOfTail(k, a, v);
        TiesOfTail(k, b, v);
      }
      SortUnique(k, d, a[1..], b[1..]);
      assert a == [a[0]] + a[1..] && b == [b[0]] + b[1..];
    }
  }
}
