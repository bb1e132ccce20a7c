/** The initial order of the deck: the dataset sorted once, at startup, by
    stored due date, with the comparator `dateA - dateB` in which a card
    without a due date stands for +Infinity.

    `Array.prototype.sort` is stable and reads a comparator value of NaN
    (which `Infinity - Infinity` gives) as +0, that is, "equal". The sort is
    modelled by its result: SortDeck is the stable insertion sort under the
    comparator, and IsTheStableSort shows that it is the only order that is
    sorted by due date and keeps every group of equal keys in dataset order,
    so it is the order any stable sort produces once NaN is read as +0. */
module Ordering {
  import opened Progress

  /** The sort key of a card: its stored due day, or +Infinity. */
  datatype Key = DueOn(day: Day) | Infinity

  /** `progressData[a.ID]?.dueDate ? new Date(...) : Infinity` */
  function KeyOf(c: Card, p: ProgressMap): (k: Key)
    ensures k == Infinity <==> StoredDue(p, c.id) == None
    ensures k.DueOn? ==> StoredDue(p, c.id) == Some(k.day)
  {
    match StoredDue(p, c.id)
    case Some(d) => DueOn(d)
    case None => Infinity
  }

  /** The values the comparator can return, as JavaScript numbers. */
  datatype Number = Finite(value: int) | PositiveInfinity | NegativeInfinity | NaN

  /** Milliseconds per day: stored dates parse to midnight timestamps. */
  const MsPerDay: int := 86400000

  /** `dateA - dateB`: the difference of two timestamps; a date minus
      Infinity is -Infinity, Infinity minus a date is +Infinity, and
      Infinity minus Infinity is NaN. */
  function Difference(a: Key, b: Key): (v: Number)
    ensures v.NaN? <==> a == Infinity && b == Infinity
    ensures v.Finite? <==> a.DueOn? && b.DueOn?
    ensures v.Finite? ==> (v.value < 0 <==> a.day < b.day) && (v.value == 0 <==> a.day == b.day)
    ensures v.NegativeInfinity? <==> a.DueOn? && b == Infinity
  {
    match (a, b)
    case (DueOn(x), DueOn(y)) => Finite((x - y) * MsPerDay)
    case (DueOn(_), Infinity) => NegativeInfinity
    case (Infinity, DueOn(_)) => PositiveInfinity
    case (Infinity, Infinity) => NaN
  }

  /** How the sort reads a comparator value `v` for the pair (x, y): only a
      positive value puts x after y; zero and NaN mean "equal". */
  predicate PutsAfter(v: Number)
    ensures PutsAfter(v) ==> !CountsAsEqual(v)
    ensures v.NaN? || v.NegativeInfinity? ==> !PutsAfter(v)
  {
    match v
    case Finite(ms) => ms > 0
    case PositiveInfinity => true
    case NegativeInfinity => false
    case NaN => false
  }

  /** The values the sort reads as "equal": zero, and NaN, which it
      replaces by +0. */
  predicate CountsAsEqual(v: Number)
    ensures v.NaN? ==> CountsAsEqual(v)
    ensures CountsAsEqual(v) ==> !v.PositiveInfinity? && !v.NegativeInfinity?
  {
    v == Finite(0) || v == NaN
  }

  /** The order the comparator stands for, stated on keys directly: days
      ascending, and no due date after every due date. */
  predicate KeyLe(a: Key, b: Key)
  {
    match (a, b)
    case (DueOn(x), DueOn(y)) => x <= y
    case (_, Infinity) => true
    case (Infinity, DueOn(_)) => false
  }

  /** The comparator agrees with KeyLe: it puts a after b exactly when
      a is not at most b, and it answers "equal" exactly on equal keys,
      in particular on two cards that both have no due date. */
  lemma ComparatorMeansKeyOrder(a: Key, b: Key)
    ensures PutsAfter(Difference(a, b)) <==> !KeyLe(a, b)
    ensures CountsAsEqual(Difference(a, b)) <==> a == b
    ensures CountsAsEqual(Difference(Infinity, Infinity))
  {
  }

  /** KeyLe, the order the comparator's values stand for once NaN is read
      as +0, is a total order. (The comparator itself returns NaN on two
      undated cards, even on a card compared with itself, which the
      ECMAScript standard counts as inconsistent.) */
  lemma KeyLeTotalOrder(a: Key, b: Key, c: Key)
    ensures KeyLe(a, a)
    ensures KeyLe(a, b) && KeyLe(b, a) ==> a == b
    ensures KeyLe(a, b) && KeyLe(b, c) ==> KeyLe(a, c)
    ensures KeyLe(a, b) || KeyLe(b, a)
  {
  }

  /** Every card is at most every later card by key. */
  predicate Sorted(s: seq<Card>, p: ProgressMap)
  {
    forall i, j :: 0 <= i < j < |s| ==> KeyLe(KeyOf(s[i], p), KeyOf(s[j], p))
  }

  /** Insert `x`, which came before every card of `t` in the dataset, into
      the sorted `t`: it goes in front of the first card the comparator does
      not put it after, so it stays ahead of the cards it ties with. */
  function Insert(x: Card, t: seq<Card>, p: ProgressMap): (r: seq<Card>)
    requires Sorted(t, p)
    ensures Sorted(r, p)
    ensures multiset(r) == multiset(t) + multiset{x}
    ensures |r| == |t| + 1
  {
    if t == [] then
      [x]
    else if !PutsAfter(Difference(KeyOf(x, p), KeyOf(t[0], p))) then
      ComparatorMeansKeyOrder(KeyOf(x, p), KeyOf(t[0], p));
      SortedCons(x, t, p);
      [x] + t
    else
      ComparatorMeansKeyOrder(KeyOf(x, p), KeyOf(t[0], p));
      var rest := Insert(x, t[1..], p);
      InsertBelow(x, t, rest, p);
      assert t == [t[0]] + t[1..];
      [t[0]] + rest
  }

  /** A card at most the first card of a sorted sequence may go in front. */
  lemma SortedCons(x: Card, t: seq<Card>, p: ProgressMap)
    requires Sorted(t, p) && t != []
    requires KeyLe(KeyOf(x, p), KeyOf(t[0], p))
    ensures Sorted([x] + t, p)
  {
    forall j | 0 < j < |t| + 1
      ensures KeyLe(KeyOf(([x] + t)[0], p), KeyOf(([x] + t)[j], p))
    {
      KeyLeTotalOrder(KeyOf(x, p), KeyOf(t[0], p), KeyOf(t[j - 1], p));
    }
  }

  /** The first card of a sorted `t` may go in front of `x` inserted into
      the rest of `t`, when the comparator puts `x` after it. */
  lemma InsertBelow(x: Card, t: seq<Card>, rest: seq<Card>, p: ProgressMap)
    requires Sorted(t, p) && t != [] && Sorted(rest, p)
    requires KeyLe(KeyOf(t[0], p), KeyOf(x, p))
    requires multiset(rest) == multiset(t[1..]) + multiset{x}
    ensures Sorted([t[0]] + rest, p)
  {
    forall j | 0 <= j < |rest|
      ensures KeyLe(KeyOf(t[0], p), KeyOf(rest[j], p))
    {
      assert rest[j] in multiset(rest);
      if rest[j] != x {
        assert rest[j] in multiset(t[1..]);
        var i :| 0 <= i < |t[1..]| && t[1..][i] == rest[j];
        assert t[i + 1] == rest[j];
      }
    }
    forall i, j | 0 <= i < j < |rest| + 1
      ensures KeyLe(KeyOf(([t[0]] + rest)[i], p), KeyOf(([t[0]] + rest)[j], p))
    {
      if i > 0 {
        assert ([t[0]] + rest)[i] == rest[i - 1];
      }
    }
  }

  /** The deck of index.js:19-25: a permutation of the dataset, sorted by
      due date, undated cards last. */
  function SortDeck(s: seq<Card>, p: ProgressMap): (r: seq<Card>)
    ensures Sorted(r, p)
    ensures multiset(r) == multiset(s)
    ensures |r| == |s|
  {
    if s == [] then [] else
      assert s == [s[0]] + s[1..];
      Insert(s[0], SortDeck(s[1..], p), p)
  }

  /** Every card with a due date comes before every card without one. */
  lemma DatedBeforeUndated(s: seq<Card>, p: ProgressMap, i: nat, j: nat)
    requires i < j < |s|
    ensures var r := SortDeck(s, p);
      KeyOf(r[i], p) == Infinity ==> KeyOf(r[j], p) == Infinity
  {
  }

  /** Dated cards appear in ascending due-day order. */
  lemma DatedAscending(s: seq<Card>, p: ProgressMap, i: nat, j: nat)
    requires i < j < |SortDeck(s, p)|
    requires KeyOf(SortDeck(s, p)[i], p).DueOn? && KeyOf(SortDeck(s, p)[j], p).DueOn?
    ensures KeyOf(SortDeck(s, p)[i], p).day <= KeyOf(SortDeck(s, p)[j], p).day
  {
  }

  // ---------------------------------------------------------------------
  // Stability: cards with equal keys keep their dataset order
  // ---------------------------------------------------------------------

  /** The cards of `s` whose key is `k`, in the order of `s`. */
  function WithKey(s: seq<Card>, p: ProgressMap, k: Key): seq<Card>
  {
    if s == [] then []
    else (if KeyOf(s[0], p) == k then [s[0]] else []) + WithKey(s[1..], p, k)
  }

  lemma {:induction false} WithKeyAppend(a: seq<Card>, b: seq<Card>, p: ProgressMap, k: Key)
    ensures WithKey(a + b, p, k) == WithKey(a, p, k) + WithKey(b, p, k)
  {
    if a == [] {
      assert a + b == b;
    } else {
      assert (a + b)[0] == a[0];
      assert (a + b)[1..] == a[1..] + b;
      WithKeyAppend(a[1..], b, p, k);
    }
  }

  /** When the comparator puts x after the first card of t, the insertion
      keeps that card in front, and x does not share its key. */
  lemma InsertAfterHead(x: Card, t: seq<Card>, p: ProgressMap)
    requires Sorted(t, p) && t != []
    requires PutsAfter(Difference(KeyOf(x, p), KeyOf(t[0], p)))
    ensures Insert(x, t, p) == [t[0]] + Insert(x, t[1..], p)
    ensures KeyOf(x, p) != KeyOf(t[0], p)
  {
    ComparatorMeansKeyOrder(KeyOf(x, p), KeyOf(t[0], p));
    KeyLeTotalOrder(KeyOf(x, p), KeyOf(x, p), KeyOf(x, p));
  }

  /** Inserting x adds x in front of the cards of key k when x has key k
      and changes nothing for other keys. */
  lemma {:induction false} InsertWithKey(x: Card, t: seq<Card>, p: ProgressMap, k: Key)
    requires Sorted(t, p)
    ensures WithKey(Insert(x, t, p), p, k)
         == (if KeyOf(x, p) == k then [x] else []) + WithKey(t, p, k)
  {
    if t == [] || !PutsAfter(Difference(KeyOf(x, p), KeyOf(t[0], p))) {
      WithKeyAppend([x], t, p, k);
    } else {
      InsertAfterHead(x, t, p);
      var rest := Insert(x, t[1..], p);
      InsertWithKey(x, t[1..], p, k);
      WithKeyAppend([t[0]], rest, p, k);
      WithKeyAppend([t[0]], t[1..], p, k);
      assert [t[0]] + t[1..] == t;
    }
  }

  /** The sort is stable: for every key, the cards with that key appear in
      the deck in their dataset order. */
  lemma {:induction false} SortDeckKeepsTies(s: seq<Card>, p: ProgressMap, k: Key)
    ensures WithKey(SortDeck(s, p), p, k) == WithKey(s, p, k)
  {
    if s != [] {
      SortDeckKeepsTies(s[1..], p, k);
      InsertWithKey(s[0], SortDeck(s[1..], p), p, k);
    }
  }

  /** In particular the cards without a due date keep their dataset order,
      and so do the cards due on the same day. */
  lemma UndatedKeepDatasetOrder(s: seq<Card>, p: ProgressMap, d: Day)
    ensures WithKey(SortDeck(s, p), p, Infinity) == WithKey(s, p, Infinity)
    ensures WithKey(SortDeck(s, p), p, DueOn(d)) == WithKey(s, p, DueOn(d))
  {
    SortDeckKeepsTies(s, p, Infinity);
    SortDeckKeepsTies(s, p, DueOn(d));
  }

  // ---------------------------------------------------------------------
  // Uniqueness: a stable sort has only one possible result
  // ---------------------------------------------------------------------

  lemma {:induction false} WithKeyMembers(s: seq<Card>, p: ProgressMap, k: Key, c: Card)
    requires c in WithKey(s, p, k)
    ensures c in s && KeyOf(c, p) == k
  {
    if s != [] {
      if c != s[0] || KeyOf(s[0], p) != k {
        WithKeyMembers(s[1..], p, k, c);
      }
    }
  }

  /** The key of the first card of a sorted sequence is at most the key of
      any card with key k when there is one. */
  lemma FirstKeyIsLeast(s: seq<Card>, p: ProgressMap, k: Key)
    requires Sorted(s, p) && s != [] && WithKey(s, p, k) != []
    ensures KeyLe(KeyOf(s[0], p), k)
  {
    var c := WithKey(s, p, k)[0];
    WithKeyMembers(s, p, k, c);
    var i :| 0 <= i < |s| && s[i] == c;
  }

  /** Sequences that agree on the cards of every key are empty together. */
  lemma EmptyExactlyWhenEmpty(a: seq<Card>, b: seq<Card>, p: ProgressMap)
    requires forall k :: WithKey(a, p, k) == WithKey(b, p, k)
    ensures a == [] <==> b == []
  {
    if a != [] {
      assert WithKey(a, p, KeyOf(a[0], p)) != [];
    }
    if b != [] {
      assert WithKey(b, p, KeyOf(b[0], p)) != [];
    }
  }

  /** Two sequences that are both sorted and agree on the cards of every
      key are the same sequence. */
  lemma {:induction false} SortedByTiesUnique(a: seq<Card>, b: seq<Card>, p: ProgressMap)
    requires Sorted(a, p) && Sorted(b, p)
    requires forall k :: WithKey(a, p, k) == WithKey(b, p, k)
    ensures a == b
    decreases |a|
  {
    EmptyExactlyWhenEmpty(a, b, p);
    if a != [] {
      var ka, kb := KeyOf(a[0], p), KeyOf(b[0], p);
      assert WithKey(a, p, ka) != [];
      assert WithKey(b, p, kb) != [];
      FirstKeyIsLeast(b, p, ka);
      FirstKeyIsLeast(a, p, kb);
      KeyLeTotalOrder(ka, kb, ka);
      assert ka == kb;
      var ta, tb := WithKey(a[1..], p, ka), WithKey(b[1..], p, ka);
      assert WithKey(a, p, ka) == [a[0]] + ta;
      assert WithKey(b, p, ka) == [b[0]] + tb;
      assert ([a[0]] + ta)[0] == a[0] && ([b[0]] + tb)[0] == b[0];
      assert a[0] == b[0];
      assert ([a[0]] + ta)[1..] == ta && ([b[0]] + tb)[1..] == tb;
      forall k
        ensures WithKey(a[1..], p, k) == WithKey(b[1..], p, k)
      {
        assert WithKey(a, p, k) == WithKey(b, p, k);
        if k == ka {
          assert ta == tb;
        } else {
          var ra, rb := WithKey(a[1..], p, k), WithKey(b[1..], p, k);
          assert WithKey(a, p, k) == [] + ra && [] + ra == ra;
          assert WithKey(b, p, k) == [] + rb && [] + rb == rb;
        }
      }
      SortedByTiesUnique(a[1..], b[1..], p);
      assert a == [a[0]] + a[1..];
      assert b == [b[0]] + b[1..];
    }
  }

  /** Any order of the dataset that is sorted by due date and keeps every
      group of equal keys in dataset order is the deck SortDeck builds. */
  lemma IsTheStableSort(s: seq<Card>, d: seq<Card>, p: ProgressMap)
    requires Sorted(d, p)
    requires forall k :: WithKey(d, p, k) == WithKey(s, p, k)
    ensures d == SortDeck(s, p)
  {
    forall k
      ensures WithKey(d, p, k) == WithKey(SortDeck(s, p), p, k)
    {
      SortDeckKeepsTies(s, p, k);
    }
    SortedByTiesUnique(d, SortDeck(s, p), p);
  }
}
