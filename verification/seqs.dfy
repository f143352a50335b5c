/**
  Sequence helpers for query results: counting and filtering rows, ordering them
  by a descending integer key (`ORDER BY ... DESC`) and keeping a prefix (`LIMIT n`).
*/
module Seqs {

  lemma AppendAssoc<T>(x: seq<T>, y: seq<T>, z: seq<T>)
    ensures x + y + z == x + (y + z)
  {
  }

  lemma SplitAround<T>(s: seq<T>, i: nat)
    requires i < |s|
    ensures s[..i] + [s[i]] + s[i + 1..] == s
  {
  }

  /** Dropping the head of a concatenation with a non-empty front. */
  lemma DropAppend<T>(a: seq<T>, b: seq<T>)
    requires |a| > 0
    ensures (a + b)[0] == a[0] && (a + b)[1..] == a[1..] + b
  {
  }

  lemma HeadTail<T>(s: seq<T>)
    requires |s| > 0
    ensures [s[0]] + s[1..] == s
  {
  }

  /** A prefix of a sequence with a head is the head and a prefix of the rest. */
  lemma ConsPrefix<T>(h: T, t: seq<T>, k: nat)
    requires k <= |t|
    ensures ([h] + t)[..k + 1] == [h] + t[..k]
  {
  }

  lemma DropOne<T>(s: seq<T>, i: nat)
    requires i < |s|
    ensures s[i..][0] == s[i] && s[i..][1..] == s[i + 1..]
  {
  }

  lemma AppendEmpty<T>(a: seq<T>, b: seq<T>)
    requires |a| == 0
    ensures a + b == b
  {
  }

  /** `sum(1 for x in s if p(x))` */
  function Count<T>(s: seq<T>, p: T -> bool): (n: nat)
    ensures n <= |s|
  {
    if |s| == 0 then 0 else (if p(s[0]) then 1 else 0) + Count(s[1..], p)
  }

  /** `[x for x in s if p(x)]` */
  function Filter<T(==)>(s: seq<T>, p: T -> bool): (r: seq<T>)
    ensures |r| == Count(s, p)
    ensures forall i :: 0 <= i < |r| ==> p(r[i]) && r[i] in s
    ensures forall i :: 0 <= i < |s| && p(s[i]) ==> s[i] in r
    ensures multiset(r) <= multiset(s)
  {
    if |s| == 0 then []
    else
      assert s == [s[0]] + s[1..];
      if p(s[0]) then [s[0]] + Filter(s[1..], p) else Filter(s[1..], p)
  }

  lemma {:induction false} CountAppend<T>(a: seq<T>, b: seq<T>, p: T -> bool)
    ensures Count(a + b, p) == Count(a, p) + Count(b, p)
  {
    if |a| > 0 {
      DropAppend(a, b);
      CountAppend(a[1..], b, p);
    } else {
      AppendEmpty(a, b);
    }
  }

  /** The positions below `n` whose item satisfies `p`. */
  function Positions<T>(s: seq<T>, p: T -> bool, n: nat): (r: set<int>)
    requires n <= |s|
    ensures forall i :: i in r <==> 0 <= i < n && p(s[i])
  {
    set i | 0 <= i < n && p(s[i])
  }

  /** Counting the first `n` items agrees with counting the positions below `n` that satisfy `p`. */
  lemma {:induction false} CountPrefixPositions<T>(s: seq<T>, p: T -> bool, n: nat)
    requires n <= |s|
    ensures Count(s[..n], p) == |Positions(s, p, n)|
  {
    if n > 0 {
      CountPrefixPositions(s, p, n - 1);
      assert s[..n] == s[..n - 1] + [s[n - 1]];
      CountAppend(s[..n - 1], [s[n - 1]], p);
      if p(s[n - 1]) {
        assert Positions(s, p, n) == Positions(s, p, n - 1) + {n - 1};
      } else {
        assert Positions(s, p, n) == Positions(s, p, n - 1);
      }
    }
  }

  /** `Count` is the number of positions whose item satisfies the condition. */
  lemma CountIsPositions<T>(s: seq<T>, p: T -> bool)
    ensures Count(s, p) == |Positions(s, p, |s|)|
  {
    CountPrefixPositions(s, p, |s|);
    assert s[..|s|] == s;
  }

  /** Both conditions hold. */
  function Both<T>(q: T -> bool, p: T -> bool): T -> bool {
    x => q(x) && p(x)
  }

  /** Counting within a filtered sequence counts the items that pass both conditions. */
  lemma {:induction false} CountFilter<T>(s: seq<T>, q: T -> bool, p: T -> bool)
    ensures Count(Filter(s, q), p) == Count(s, Both(q, p))
  {
    if |s| > 0 {
      CountFilter(s[1..], q, p);
      if q(s[0]) {
        assert ([s[0]] + Filter(s[1..], q))[1..] == Filter(s[1..], q);
      }
    }
  }

  /** Conditions that agree on every item count the same items. */
  lemma {:induction false} CountSame<T>(s: seq<T>, p: T -> bool, q: T -> bool)
    requires forall x :: p(x) == q(x)
    ensures Count(s, p) == Count(s, q)
  {
    if |s| > 0 {
      CountSame(s[1..], p, q);
    }
  }

  /** Conditions that agree on every item keep the same items. */
  lemma {:induction false} FilterSame<T>(s: seq<T>, p: T -> bool, q: T -> bool)
    requires forall x :: p(x) == q(x)
    ensures Filter(s, p) == Filter(s, q)
  {
    if |s| > 0 {
      FilterSame(s[1..], p, q);
    }
  }

  /** Items satisfying two exclusive conditions are at most as many as all items. */
  lemma {:induction false} CountDisjoint<T>(s: seq<T>, p: T -> bool, q: T -> bool)
    requires forall x :: !(p(x) && q(x))
    ensures Count(s, p) + Count(s, q) <= |s|
  {
    if |s| > 0 {
      CountDisjoint(s[1..], p, q);
    }
  }

  /** Items satisfying three pairwise exclusive conditions are at most as many as all items. */
  lemma {:induction false} CountDisjoint3<T>(s: seq<T>, p: T -> bool, q: T -> bool, r: T -> bool)
    requires forall x :: !(p(x) && q(x)) && !(p(x) && r(x)) && !(q(x) && r(x))
    ensures Count(s, p) + Count(s, q) + Count(s, r) <= |s|
  {
    if |s| > 0 {
      CountDisjoint3(s[1..], p, q, r);
    }
  }

  /** A weaker condition counts at least as many items. */
  lemma {:induction false} CountMono<T>(s: seq<T>, p: T -> bool, q: T -> bool)
    requires forall x :: p(x) ==> q(x)
    ensures Count(s, p) <= Count(s, q)
  {
    if |s| > 0 {
      CountMono(s[1..], p, q);
    }
  }

  /** Every item is counted by a condition or by its negation. */
  lemma {:induction false} CountComplement<T>(s: seq<T>, p: T -> bool)
    ensures Count(s, p) + Count(s, x => !p(x)) == |s|
  {
    if |s| > 0 {
      CountComplement(s[1..], p);
    }
  }

  /** Ordered by `key`, largest first. */
  predicate SortedDesc<T>(s: seq<T>, key: T -> int) {
    forall i, j :: 0 <= i < j < |s| ==> key(s[i]) >= key(s[j])
  }

  /** Insert `x` after every item whose key is larger than its own. */
  function InsertDesc<T>(x: T, s: seq<T>, key: T -> int): (r: seq<T>)
    requires SortedDesc(s, key)
    ensures SortedDesc(r, key)
    ensures multiset(r) == multiset(s) + multiset{x}
  {
    if |s| == 0 then [x]
    else if key(s[0]) > key(x) then
      var tail := InsertDesc(x, s[1..], key);
      InsertBehindHead(x, s, key, tail);
      [s[0]] + tail
    else
      [x] + s
  }

  /** Putting the head back in front of the insertion into the tail keeps the order. */
  lemma InsertBehindHead<T>(x: T, s: seq<T>, key: T -> int, tail: seq<T>)
    requires |s| > 0 && SortedDesc(s, key) && key(s[0]) >= key(x)
    requires SortedDesc(tail, key) && multiset(tail) == multiset(s[1..]) + multiset{x}
    ensures SortedDesc([s[0]] + tail, key)
    ensures multiset([s[0]] + tail) == multiset(s) + multiset{x}
  {
    MultisetCons(s);
    forall k | 0 <= k < |tail| ensures key(tail[k]) <= key(s[0]) {
      var y := tail[k];
      assert y in multiset(tail);
      assert y == x || y in multiset(s[1..]);
    }
    ConsSorted(s[0], tail, key);
  }

  lemma MultisetCons<T>(s: seq<T>)
    requires |s| > 0
    ensures multiset(s) == multiset{s[0]} + multiset(s[1..])
  {
    assert s == [s[0]] + s[1..];
  }

  /** An item no smaller than every item of a sorted sequence can go in front of it. */
  lemma ConsSorted<T>(h: T, tail: seq<T>, key: T -> int)
    requires SortedDesc(tail, key)
    requires forall k :: 0 <= k < |tail| ==> key(tail[k]) <= key(h)
    ensures SortedDesc([h] + tail, key)
  {
    var r := [h] + tail;
    forall i, j | 0 <= i < j < |r| ensures key(r[i]) >= key(r[j]) {
      assert r[j] == tail[j - 1];
      if i > 0 {
        assert r[i] == tail[i - 1];
      }
    }
  }

  /** `ORDER BY key DESC`: a permutation of `s`, largest key first. */
  function SortDesc<T>(s: seq<T>, key: T -> int): (r: seq<T>)
    ensures SortedDesc(r, key)
    ensures multiset(r) == multiset(s)
  {
    if |s| == 0 then []
    else
      assert s == [s[0]] + s[1..];
      InsertDesc(s[0], SortDesc(s[1..], key), key)
  }

  /** Filtering keeps every copy of an item that passes and none of one that fails. */
  lemma {:induction false} FilterMultiplicity<T>(s: seq<T>, p: T -> bool, x: T)
    ensures multiset(Filter(s, p))[x] == if p(x) then multiset(s)[x] else 0
    decreases |s|
  {
    if |s| > 0 {
      FilterMultiplicity(s[1..], p, x);
      MultisetCons(s);
      if p(s[0]) {
        assert Filter(s, p) == [s[0]] + Filter(s[1..], p);
      }
    }
  }

  /** The sort is stable: rows that tie on the key keep the order they came in. */
  lemma {:induction false} SortDescKeepsTies<T>(s: seq<T>, key: T -> int)
    requires forall i :: 0 <= i < |s| ==> key(s[i]) == key(s[0])
    ensures SortDesc(s, key) == s
    decreases |s|
  {
    if |s| > 0 {
      var rest := s[1..];
      assert forall i :: 0 <= i < |rest| ==> key(rest[i]) == key(s[1]);
      SortDescKeepsTies(rest, key);
      InsertInFront(s[0], rest, key);
      assert s == [s[0]] + rest;
    }
  }

  /** An item whose key is no smaller than the head's goes in front. */
  lemma InsertInFront<T>(x: T, s: seq<T>, key: T -> int)
    requires SortedDesc(s, key) && (|s| == 0 || key(s[0]) <= key(x))
    ensures InsertDesc(x, s, key) == [x] + s
  {
  }

  /** `LIMIT n` */
  function Take<T>(s: seq<T>, n: nat): (r: seq<T>)
    ensures |r| == if |s| < n then |s| else n
    ensures r == s[..|r|]
  {
    if |s| <= n then s else s[..n]
  }

  /** `sub` is `s` with some items left out, the rest in their order. */
  predicate IsSubsequence<T(==)>(sub: seq<T>, s: seq<T>)
    decreases |s|
  {
    |sub| == 0 || (|s| > 0 && (if sub[0] == s[0] then IsSubsequence(sub[1..], s[1..]) else IsSubsequence(sub, s[1..])))
  }

  /** A sequence with no repeated item. */
  predicate Distinct<T(==)>(s: seq<T>) {
    forall i, j :: 0 <= i < j < |s| ==> s[i] != s[j]
  }

  /** Position of the first occurrence of `x` in `s`. */
  function IndexIn<T(==)>(s: seq<T>, x: T): (i: nat)
    requires x in s
    ensures i < |s| && s[i] == x && x !in s[..i]
  {
    if s[0] == x then 0 else 1 + IndexIn(s[1..], x)
  }

  /**
    The loop `for x in s: if x not in seen: out.append(x); seen.add(x)`, started
    with `seen` already holding some items.
  */
  function DedupFrom<T(==)>(s: seq<T>, seen: set<T>): (r: seq<T>)
    ensures Distinct(r)
    ensures forall i :: 0 <= i < |r| ==> r[i] in s && r[i] !in seen
    ensures forall i :: 0 <= i < |s| && s[i] !in seen ==> s[i] in r
  {
    if |s| == 0 then []
    else if s[0] in seen then DedupFrom(s[1..], seen)
    else
      var rest := DedupFrom(s[1..], seen + {s[0]});
      assert s[0] !in rest;
      [s[0]] + rest
  }

  /**
    First occurrences of the items of `s`, in the order they are first met: no
    item twice, every item of `s` present, and the items keep their order.
  */
  function Dedup<T(==)>(s: seq<T>): (r: seq<T>)
    ensures Distinct(r)
    ensures forall i :: 0 <= i < |r| ==> r[i] in s
    ensures forall i :: 0 <= i < |s| ==> s[i] in r
  {
    DedupFrom(s, {})
  }

  /** What `DedupFrom` keeps is a subsequence of its input. */
  lemma {:induction false} DedupFromSubsequence<T>(s: seq<T>, seen: set<T>)
    ensures IsSubsequence(DedupFrom(s, seen), s)
  {
    if |s| > 0 {
      if s[0] in seen {
        DedupFromSubsequence(s[1..], seen);
        SubsequenceSkip(DedupFrom(s[1..], seen), s);
      } else {
        DedupFromSubsequence(s[1..], seen + {s[0]});
      }
    }
  }

  /** Putting one more item in front of `s` keeps `sub` a subsequence. */
  lemma {:induction false} SubsequenceSkip<T>(sub: seq<T>, s: seq<T>)
    requires |s| > 0 && IsSubsequence(sub, s[1..])
    ensures IsSubsequence(sub, s)
    decreases |s|, 0
  {
    if |sub| > 0 && sub[0] == s[0] {
      SubsequenceDropHead(sub, s[1..]);
    }
  }

  /** Dropping the first item of a subsequence keeps it a subsequence. */
  lemma {:induction false} SubsequenceDropHead<T>(sub: seq<T>, t: seq<T>)
    requires |sub| > 0 && IsSubsequence(sub, t)
    ensures IsSubsequence(sub[1..], t)
    decreases |t|, 1
  {
    if sub[0] == t[0] {
      SubsequenceSkip(sub[1..], t);
    } else {
      SubsequenceDropHead(sub, t[1..]);
      SubsequenceSkip(sub[1..], t);
    }
  }

  /** Filtering keeps the surviving items in their original order. */
  lemma {:induction false} FilterSubsequence<T>(s: seq<T>, p: T -> bool)
    ensures IsSubsequence(Filter(s, p), s)
    decreases |s|
  {
    if |s| > 0 {
      FilterSubsequence(s[1..], p);
      if p(s[0]) {
        var r := Filter(s, p);
        assert r[0] == s[0] && r[1..] == Filter(s[1..], p);
      } else {
        SubsequenceSkip(Filter(s, p), s);
      }
    }
  }

  lemma IndexInTail<T>(s: seq<T>, x: T)
    requires x in s && s[0] != x
    ensures x in s[1..] && IndexIn(s, x) == 1 + IndexIn(s[1..], x)
  {
    assert s == [s[0]] + s[1..];
  }

  lemma IndexInTailOrder<T>(s: seq<T>, x: T, y: T)
    requires x in s && y in s && s[0] != x && s[0] != y
    requires IndexIn(s[1..], x) < IndexIn(s[1..], y)
    ensures IndexIn(s, x) < IndexIn(s, y)
  {
    IndexInTail(s, x);
    IndexInTail(s, y);
  }

  /** In a sequence without repeats, the first occurrence of item `i` is at `i`. */
  lemma IndexInDistinct<T>(r: seq<T>, i: nat)
    requires Distinct(r) && i < |r|
    ensures IndexIn(r, r[i]) == i
  {
  }

  /**
    `DedupFrom` lists items in the order of their first occurrence in the input:
    of two items it keeps, the earlier one is met first.
  */
  lemma {:induction false} DedupFromFirstSeenOrder<T>(s: seq<T>, seen: set<T>, x: T, y: T)
    requires x in DedupFrom(s, seen) && y in DedupFrom(s, seen)
    requires IndexIn(DedupFrom(s, seen), x) < IndexIn(DedupFrom(s, seen), y)
    ensures x in s && y in s && IndexIn(s, x) < IndexIn(s, y)
    decreases |s|, 1
  {
    if s[0] in seen {
      SkippedHeadOrder(s, seen, x, y);
    } else {
      KeptHeadOrder(s, seen, x, y);
    }
  }

  lemma {:induction false} SkippedHeadOrder<T>(s: seq<T>, seen: set<T>, x: T, y: T)
    requires |s| > 0 && s[0] in seen
    requires x in DedupFrom(s, seen) && y in DedupFrom(s, seen)
    requires IndexIn(DedupFrom(s, seen), x) < IndexIn(DedupFrom(s, seen), y)
    ensures x in s && y in s && IndexIn(s, x) < IndexIn(s, y)
    decreases |s|, 0
  {
    assert DedupFrom(s, seen) == DedupFrom(s[1..], seen);
    DedupFromFirstSeenOrder(s[1..], seen, x, y);
    IndexInTailOrder(s, x, y);
  }

  lemma DedupKeptHead<T>(s: seq<T>, seen: set<T>)
    requires |s| > 0 && s[0] !in seen
    ensures DedupFrom(s, seen) == [s[0]] + DedupFrom(s[1..], seen + {s[0]})
  {
  }

  lemma {:induction false} KeptHeadOrder<T>(s: seq<T>, seen: set<T>, x: T, y: T)
    requires |s| > 0 && s[0] !in seen
    requires x in DedupFrom(s, seen) && y in DedupFrom(s, seen)
    requires IndexIn(DedupFrom(s, seen), x) < IndexIn(DedupFrom(s, seen), y)
    ensures x in s && y in s && IndexIn(s, x) < IndexIn(s, y)
    decreases |s|, 0
  {
    var r := DedupFrom(s, seen);
    DedupKeptHead(s, seen);
    assert r[0] == s[0] && y != s[0];
    IndexInTail(s, y);
    if x != s[0] {
      var rt := DedupFrom(s[1..], seen + {s[0]});
      assert r[1..] == rt;
      IndexInTail(r, x);
      IndexInTail(r, y);
      DedupFromFirstSeenOrder(s[1..], seen + {s[0]}, x, y);
      IndexInTailOrder(s, x, y);
    }
  }

  /**
    `Dedup` keeps the first occurrence of each item: its output is a subsequence
    of the input, listed in the order the items are first met.
  */
  lemma DedupKeepsFirstOccurrences<T>(s: seq<T>)
    ensures IsSubsequence(Dedup(s), s)
    ensures forall i, j :: 0 <= i < j < |Dedup(s)| ==> IndexIn(s, Dedup(s)[i]) < IndexIn(s, Dedup(s)[j])
  {
    DedupFromSubsequence(s, {});
    var r := Dedup(s);
    forall i, j | 0 <= i < j < |r|
      ensures IndexIn(s, r[i]) < IndexIn(s, r[j])
    {
      IndexInDistinct(r, i);
      IndexInDistinct(r, j);
      DedupFromFirstSeenOrder(s, {}, r[i], r[j]);
    }
  }

  /** A filter that every item passes keeps the whole sequence. */
  lemma {:induction false} FilterAll<T>(s: seq<T>, p: T -> bool)
    requires forall i :: 0 <= i < |s| ==> p(s[i])
    ensures Filter(s, p) == s
  {
    if |s| > 0 {
      FilterAll(s[1..], p);
      assert s == [s[0]] + s[1..];
    }
  }

  /** Filtering a concatenation filters each part. */
  lemma {:induction false} FilterAppend<T>(a: seq<T>, b: seq<T>, p: T -> bool)
    ensures Filter(a + b, p) == Filter(a, p) + Filter(b, p)
  {
    if |a| > 0 {
      DropAppend(a, b);
      FilterAppend(a[1..], b, p);
      AppendAssoc([a[0]], Filter(a[1..], p), Filter(b, p));
    } else {
      AppendEmpty(a, b);
    }
  }

  /**
    A UNIQUE column: no two rows that `counted` admits share a `key`. A
    nullable column leaves its NULLs out through `counted`.
  */
  predicate UniqueWhere<T, K(==)>(s: seq<T>, key: T -> K, counted: T -> bool) {
    forall i, j :: 0 <= i < j < |s| && counted(s[i]) && counted(s[j]) ==> key(s[i]) != key(s[j])
  }

  /** Deleting rows cannot break a unique column. */
  lemma {:induction false} FilterUnique<T, K>(s: seq<T>, key: T -> K, counted: T -> bool, p: T -> bool)
    requires UniqueWhere(s, key, counted)
    ensures UniqueWhere(Filter(s, p), key, counted)
  {
    if |s| > 0 {
      UniqueTail(s, key, counted);
      FilterUnique(s[1..], key, counted, p);
      if p(s[0]) {
        var t := Filter(s[1..], p);
        forall y | y in t && counted(s[0]) && counted(y) ensures key(s[0]) != key(y) {
          UniqueHead(s, key, counted, y);
        }
        UniqueCons(s[0], t, key, counted);
      }
    }
  }

  /** Replacing a row by one with the same key, counted alike, keeps a unique column unique. */
  lemma ReplaceUnique<T, K>(s: seq<T>, i: nat, w: T, key: T -> K, counted: T -> bool)
    requires UniqueWhere(s, key, counted) && i < |s|
    requires key(w) == key(s[i]) && counted(w) == counted(s[i])
    ensures UniqueWhere(s[i := w], key, counted)
  {
  }

  lemma UniqueTail<T, K>(s: seq<T>, key: T -> K, counted: T -> bool)
    requires |s| > 0 && UniqueWhere(s, key, counted)
    ensures UniqueWhere(s[1..], key, counted)
  {
    var tail := s[1..];
    forall i, j | 0 <= i < j < |tail| && counted(tail[i]) && counted(tail[j])
      ensures key(tail[i]) != key(tail[j])
    {
      assert tail[i] == s[i + 1] && tail[j] == s[j + 1];
    }
  }

  lemma UniqueHead<T, K>(s: seq<T>, key: T -> K, counted: T -> bool, y: T)
    requires |s| > 0 && UniqueWhere(s, key, counted)
    requires y in s[1..] && counted(s[0]) && counted(y)
    ensures key(s[0]) != key(y)
  {
    var k :| 0 <= k < |s| - 1 && s[1..][k] == y;
    assert s[k + 1] == y;
  }

  lemma UniqueCons<T, K>(x: T, t: seq<T>, key: T -> K, counted: T -> bool)
    requires UniqueWhere(t, key, counted)
    requires forall y :: y in t && counted(x) && counted(y) ==> key(x) != key(y)
    ensures UniqueWhere([x] + t, key, counted)
  {
    var r := [x] + t;
    forall i, j | 0 <= i < j < |r| && counted(r[i]) && counted(r[j])
      ensures key(r[i]) != key(r[j])
    {
      assert r[j] == t[j - 1];
      if i > 0 {
        assert r[i] == t[i - 1];
      }
    }
  }

  /** SQL `LIMIT n`, where SQLite reads a negative `n` as no limit at all. */
  function SqlLimit<T>(s: seq<T>, n: int): (r: seq<T>)
    ensures n >= 0 ==> |r| == if |s| < n then |s| else n
    ensures n < 0 ==> r == s
    ensures r == s[..|r|]
  {
    if n < 0 then s else Take(s, n)
  }

  /**
    `WHERE p ORDER BY key DESC LIMIT n`: the rows that pass, largest key first,
    no more than `n` of them when `n` is not negative.
  */
  function Query<T(==)>(s: seq<T>, p: T -> bool, key: T -> int, n: int): (r: seq<T>)
    ensures SortedDesc(r, key)
    ensures forall i :: 0 <= i < |r| ==> r[i] in s && p(r[i])
    ensures |r| == if 0 <= n < Count(s, p) then n else Count(s, p)
    ensures !(0 <= n < Count(s, p)) ==> multiset(r) == multiset(Filter(s, p))
    ensures multiset(r) <= multiset(Filter(s, p))
    ensures forall x, i :: x in multiset(Filter(s, p)) - multiset(r) && 0 <= i < |r| ==> key(x) <= key(r[i])
  {
    var sorted := SortDesc(Filter(s, p), key);
    SortedRows(s, p, key);
    PrefixSorted(sorted, SqlLimit(sorted, n), key);
    PrefixKeepsLargest(sorted, |SqlLimit(sorted, n)|, key);
    SqlLimit(sorted, n)
  }

  /**
    Cutting a sorted sequence keeps items from the whole of it, and every item
    cut off is no larger than any item kept.
  */
  lemma PrefixKeepsLargest<T>(s: seq<T>, m: nat, key: T -> int)
    requires SortedDesc(s, key) && m <= |s|
    ensures multiset(s[..m]) <= multiset(s)
    ensures forall x, i :: x in multiset(s) - multiset(s[..m]) && 0 <= i < m ==> key(x) <= key(s[..m][i])
  {
    CutMultiset(s, m);
    forall x, i | x in multiset(s[m..]) && 0 <= i < m ensures key(x) <= key(s[..m][i]) {
      TailBelowHead(s, key, m, x, i);
    }
  }

  /** What a cut leaves out is exactly the rest of the sequence. */
  lemma CutMultiset<T>(s: seq<T>, m: nat)
    requires m <= |s|
    ensures multiset(s[..m]) <= multiset(s)
    ensures multiset(s) - multiset(s[..m]) == multiset(s[m..])
  {
    assert s == s[..m] + s[m..];
  }

  /** In a sorted sequence, an item after the cut is no larger than one before it. */
  lemma TailBelowHead<T>(s: seq<T>, key: T -> int, m: nat, x: T, i: nat)
    requires SortedDesc(s, key) && i < m <= |s| && x in multiset(s[m..])
    ensures key(x) <= key(s[..m][i])
  {
    var j :| m <= j < |s| && s[j] == x;
  }

  /** Sorting the rows that pass keeps exactly those rows. */
  lemma SortedRows<T>(s: seq<T>, p: T -> bool, key: T -> int)
    ensures var sorted := SortDesc(Filter(s, p), key);
      |sorted| == Count(s, p) && forall i :: 0 <= i < |sorted| ==> sorted[i] in s && p(sorted[i])
  {
    var f := Filter(s, p);
    var sorted := SortDesc(f, key);
    assert |sorted| == |f| by {
      assert |multiset(sorted)| == |multiset(f)|;
    }
    forall i | 0 <= i < |sorted| ensures sorted[i] in s && p(sorted[i]) {
      assert sorted[i] in multiset(f);
    }
  }

  /** A prefix of a sorted sequence is sorted. */
  lemma PrefixSorted<T>(s: seq<T>, r: seq<T>, key: T -> int)
    requires SortedDesc(s, key) && |r| <= |s| && r == s[..|r|]
    ensures SortedDesc(r, key)
    ensures forall i :: 0 <= i < |r| ==> r[i] == s[i]
  {
  }
}
