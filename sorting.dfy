/**
 The comparator of the token table (app/page.tsx:119-133) and the in-place
 stable sort it is handed to. `Array.prototype.sort` is stable, so the sort
 here is an insertion sort that only swaps neighbours the comparator orders
 strictly.
 */
module Sorting {
  import opened Types
  import opened TextOrder

  /** A field value read with `a[sortConfig.key]`: a string or a number. */
  datatype KeyValue = Text(s: string) | Number(n: real)

  function KeyOf(key: SortKey, t: Token): KeyValue
  {
    match key
    case IdKey => Text(t.id)
    case NameKey => Text(t.name)
    case SlugKey => Text(t.slug)
    case LogoKey => Text(t.logo)
    case PriceKey => Number(t.price)
    case PriceChange24hKey => Number(t.priceChange24h)
    case TvlKey => Number(t.tvl)
    case Volume24hKey => Number(t.volume24h)
    case CategoryKey => Text(CategoryId(t.category))
  }

  /** The value the comparator compares: string values are lowered first. */
  function Operand(key: SortKey, t: Token): KeyValue
  {
    match KeyOf(key, t)
    case Text(s) => Text(Lower(s))
    case Number(n) => Number(n)
  }

  /** JavaScript's `<` between two values of the same kind. */
  predicate KvLess(u: KeyValue, v: KeyValue)
  {
    match (u, v)
    case (Text(a), Text(b)) => LexLess(a, b)
    case (Number(x), Number(y)) => x < y
    case _ => false
  }

  /**
   The comparator handed to `sort`: positive when `a` belongs after `b`,
   negative when before, zero on a tie.
   */
  function Compare(key: SortKey, dir: Direction, a: Token, b: Token): (r: int)
    ensures -1 <= r <= 1
    ensures r == 0 <==> Operand(key, a) == Operand(key, b)
  {
    var u, v := Operand(key, a), Operand(key, b);
    OperandsComparable(key, a, b);
    if dir == Ascending then
      (if KvLess(v, u) then 1 else if KvLess(u, v) then -1 else 0)
    else
      (if KvLess(u, v) then 1 else if KvLess(v, u) then -1 else 0)
  }

  /** Two tokens' operands for one key are either equal or strictly ordered, never both. */
  lemma OperandsComparable(key: SortKey, a: Token, b: Token)
    ensures var u, v := Operand(key, a), Operand(key, b);
      (u == v || KvLess(u, v) || KvLess(v, u)) && !(KvLess(u, v) && KvLess(v, u)) &&
      (u == v ==> !KvLess(u, v))
  {
    var u, v := Operand(key, a), Operand(key, b);
    if u.Text? && v.Text? {
      LexLessTotal(u.s, v.s);
      if LexLess(u.s, v.s) { LexLessAsymmetric(u.s, v.s); }
      LexLessIrreflexive(u.s);
    }
  }

  /** The comparator is antisymmetric, as `sort` requires of a consistent comparator. */
  lemma CompareAntisymmetric(key: SortKey, dir: Direction, a: Token, b: Token)
    ensures Compare(key, dir, a, b) == -Compare(key, dir, b, a)
  {
    OperandsComparable(key, a, b);
  }

  lemma KvLessTransitive(u: KeyValue, v: KeyValue, w: KeyValue)
    requires KvLess(u, v) && KvLess(v, w)
    ensures KvLess(u, w)
  {
    if u.Text? { LexLessTransitive(u.s, v.s, w.s); }
  }

  /** "Not after" is transitive, so a sorted list is sorted pairwise. */
  lemma CompareTransitive(key: SortKey, dir: Direction, a: Token, b: Token, c: Token)
    requires Compare(key, dir, a, b) <= 0 && Compare(key, dir, b, c) <= 0
    ensures Compare(key, dir, a, c) <= 0
  {
    var u, v, w := Operand(key, a), Operand(key, b), Operand(key, c);
    OperandsComparable(key, a, b);
    OperandsComparable(key, b, c);
    OperandsComparable(key, a, c);
    if dir == Ascending {
      if KvLess(w, u) {
        if KvLess(u, v) { KvLessTransitive(w, u, v); }
      }
    } else {
      if KvLess(u, w) {
        if KvLess(v, u) { KvLessTransitive(v, u, w); }
      }
    }
  }

  /** No element is placed after one the comparator puts strictly behind it. */
  ghost predicate Sorted(key: SortKey, dir: Direction, s: seq<Token>)
  {
    forall i, j :: 0 <= i < j < |s| ==> Compare(key, dir, s[i], s[j]) <= 0
  }

  /** The records of `s` whose compared key is `v`, in the order of `s`. */
  function Ties(key: SortKey, s: seq<Token>, v: KeyValue): seq<Token>
  {
    if s == [] then []
    else (if Operand(key, s[0]) == v then [s[0]] else []) + Ties(key, s[1..], v)
  }

  /**
   Stability: every group of records with equal keys appears in `t` in the same
   order as in `s`.
   */
  ghost predicate SameTies(key: SortKey, s: seq<Token>, t: seq<Token>)
  {
    forall v :: Ties(key, s, v) == Ties(key, t, v)
  }

  /** `u` is at most `v` in JavaScript's order: equal or strictly smaller. */
  predicate KvAtMost(u: KeyValue, v: KeyValue)
  {
    u == v || KvLess(u, v)
  }

  /**
   What sorted means for the key itself: ascending leaves the compared key
   (strings lowered) non-decreasing along the list, descending non-increasing.
   */
  lemma SortedKeyOrder(key: SortKey, dir: Direction, s: seq<Token>, i: int, j: int)
    requires Sorted(key, dir, s) && 0 <= i < j < |s|
    ensures dir == Ascending ==> KvAtMost(Operand(key, s[i]), Operand(key, s[j]))
    ensures dir == Descending ==> KvAtMost(Operand(key, s[j]), Operand(key, s[i]))
  {
    assert Compare(key, dir, s[i], s[j]) <= 0;
    OperandsComparable(key, s[i], s[j]);
  }

  lemma {:induction false} TiesAppend(key: SortKey, s: seq<Token>, t: seq<Token>, v: KeyValue)
    ensures Ties(key, s + t, v) == Ties(key, s, v) + Ties(key, t, v)
  {
    if s == [] {
      assert s + t == t;
    } else {
      assert (s + t)[1..] == s[1..] + t;
      TiesAppend(key, s[1..], t, v);
    }
  }

  lemma TiesOfPair(key: SortKey, x: Token, y: Token, v: KeyValue)
    requires Operand(key, x) != Operand(key, y)
    ensures Ties(key, [x, y], v) == Ties(key, [y, x], v)
  {
    assert [x, y][1..] == [y] && [y, x][1..] == [x];
    assert [x][1..] == [] && [y][1..] == [];
  }

  /** Swapping two neighbours with different keys keeps every group's order. */
  lemma SwapKeepsTies(key: SortKey, s: seq<Token>, j: nat)
    requires 0 < j < |s|
    requires Operand(key, s[j - 1]) != Operand(key, s[j])
    ensures SameTies(key, s[j - 1 := s[j]][j := s[j - 1]], s)
  {
    var t := s[j - 1 := s[j]][j := s[j - 1]];
    var pre, x, y, post := s[..j - 1], s[j - 1], s[j], s[j + 1..];
    assert s == (pre + [x, y]) + post;
    assert t == (pre + [y, x]) + post;
    forall v
      ensures Ties(key, t, v) == Ties(key, s, v)
    {
      TiesAppend(key, pre + [x, y], post, v);
      TiesAppend(key, pre, [x, y], v);
      TiesAppend(key, pre + [y, x], post, v);
      TiesAppend(key, pre, [y, x], v);
      TiesOfPair(key, x, y, v);
    }
  }

  lemma TiesOfHead(key: SortKey, s: seq<Token>)
    requires s != []
    ensures Ties(key, s, Operand(key, s[0])) == [s[0]] + Ties(key, s[1..], Operand(key, s[0]))
  {
  }

  lemma TiesOfOthers(key: SortKey, s: seq<Token>, v: KeyValue)
    requires s != [] && Operand(key, s[0]) != v
    ensures Ties(key, s, v) == Ties(key, s[1..], v)
  {
  }

  /** A record in a tie group is a record of the list with that key. */
  lemma {:induction false} TiesMember(key: SortKey, s: seq<Token>, v: KeyValue, z: Token)
    requires z in Ties(key, s, v)
    ensures z in s && Operand(key, z) == v
  {
    if z != s[0] || Operand(key, s[0]) != v {
      TiesMember(key, s[1..], v, z);
    }
  }

  /** The head of a sorted list comes no later than any of its records. */
  lemma SortedHeadFirst(key: SortKey, dir: Direction, s: seq<Token>, z: Token)
    requires Sorted(key, dir, s) && z in s
    ensures Compare(key, dir, s[0], z) <= 0
  {
    var k :| 0 <= k < |s| && s[k] == z;
    if k == 0 {
      assert Operand(key, s[0]) == Operand(key, z);
    }
  }

  /** Two sorted lists with the same tie groups start with the same record. */
  lemma SortedHeadsAgree(key: SortKey, dir: Direction, x: seq<Token>, y: seq<Token>)
    requires Sorted(key, dir, x) && Sorted(key, dir, y) && SameTies(key, x, y)
    requires x != [] && y != []
    ensures x[0] == y[0]
  {
    var u := Operand(key, x[0]);
    TiesOfHead(key, x);
    assert Ties(key, x, u) == Ties(key, y, u);
    TiesMember(key, y, u, x[0]);
    assert Ties(key, x, Operand(key, y[0])) == Ties(key, y, Operand(key, y[0]));
    TiesOfHead(key, y);
    TiesMember(key, x, Operand(key, y[0]), y[0]);
    SortedHeadFirst(key, dir, x, y[0]);
    SortedHeadFirst(key, dir, y, x[0]);
    CompareAntisymmetric(key, dir, x[0], y[0]);
    assert Operand(key, y[0]) == u;
    assert Ties(key, x, u)[0] == x[0] && Ties(key, y, u)[0] == y[0];
  }

  /** Removing the same head from both lists keeps their tie groups equal. */
  lemma TailsSameTies(key: SortKey, x: seq<Token>, y: seq<Token>)
    requires x != [] && y != [] && x[0] == y[0] && SameTies(key, x, y)
    ensures SameTies(key, x[1..], y[1..])
  {
    var u := Operand(key, x[0]);
    forall v
      ensures Ties(key, x[1..], v) == Ties(key, y[1..], v)
    {
      assert Ties(key, x, v) == Ties(key, y, v);
      if v != u {
        TiesOfOthers(key, x, v);
        TiesOfOthers(key, y, v);
      } else {
        TiesOfHead(key, x);
        TiesOfHead(key, y);
        assert Ties(key, x[1..], u) == Ties(key, x, u)[1..];
        assert Ties(key, y[1..], u) == Ties(key, y, u)[1..];
      }
    }
  }

  lemma SortedTail(key: SortKey, dir: Direction, x: seq<Token>)
    requires Sorted(key, dir, x) && x != []
    ensures Sorted(key, dir, x[1..])
  {
    forall i, j | 0 <= i < j < |x| - 1
      ensures Compare(key, dir, x[1..][i], x[1..][j]) <= 0
    {
      assert x[1..][i] == x[i + 1] && x[1..][j] == x[j + 1];
    }
  }

  /**
   A sorted order that keeps every tie group in input order is unique: two
   lists that are both sorted and have the same tie groups are equal. So the
   stable sort's output is fully determined by its input.
   */
  lemma {:induction false} SortedTiesUnique(key: SortKey, dir: Direction, x: seq<Token>, y: seq<Token>)
    requires Sorted(key, dir, x) && Sorted(key, dir, y) && SameTies(key, x, y)
    ensures x == y
    decreases |x|
  {
    if x == [] || y == [] {
      var s := if x == [] then y else x;
      if s != [] {
        TiesOfHead(key, s);
        assert false;
      }
    } else {
      SortedHeadsAgree(key, dir, x, y);
      TailsSameTies(key, x, y);
      SortedTail(key, dir, x);
      SortedTail(key, dir, y);
      SortedTiesUnique(key, dir, x[1..], y[1..]);
      assert x == [x[0]] + x[1..] && y == [y[0]] + y[1..];
    }
  }

  /** Keeping the same tie groups is symmetric. */
  lemma SameTiesSymmetric(key: SortKey, s: seq<Token>, t: seq<Token>)
    requires SameTies(key, s, t)
    ensures SameTies(key, t, s)
  {
    forall v
      ensures Ties(key, t, v) == Ties(key, s, v)
    {
      assert Ties(key, s, v) == Ties(key, t, v);
    }
  }

  lemma SameTiesTransitive(key: SortKey, r: seq<Token>, s: seq<Token>, t: seq<Token>)
    requires SameTies(key, r, s) && SameTies(key, s, t)
    ensures SameTies(key, r, t)
  {
    forall v
      ensures Ties(key, r, v) == Ties(key, t, v)
    {
      assert Ties(key, r, v) == Ties(key, s, v);
    }
  }

  /** Exchanges `a[j - 1]` and `a[j]`, which the comparator orders strictly the wrong way. */
  method SwapDown(a: array<Token>, j: int, key: SortKey, dir: Direction)
    requires 0 < j < a.Length
    requires Compare(key, dir, a[j - 1], a[j]) > 0
    modifies a
    ensures a[j - 1] == old(a[j]) && a[j] == old(a[j - 1])
    ensures forall k :: 0 <= k < a.Length && k != j - 1 && k != j ==> a[k] == old(a[k])
    ensures multiset(a[..]) == multiset(old(a[..]))
    ensures SameTies(key, a[..], old(a[..]))
  {
    SwapKeepsTies(key, a[..], j);
    a[j - 1], a[j] := a[j], a[j - 1];
    assert a[..] == old(a[..])[j - 1 := old(a[j])][j := old(a[j - 1])];
  }

  /** `s[..n]` is sorted by the comparator. */
  ghost predicate SortedBelow(key: SortKey, dir: Direction, s: seq<Token>, n: int)
    requires n <= |s|
  {
    forall p, q :: 0 <= p < q < n ==> Compare(key, dir, s[p], s[q]) <= 0
  }

  /**
   The state of one insertion pass over `s[..i + 1]`: the record being moved
   sits at `j`, the others are sorted, and it comes no later than every record
   to its right.
   */
  ghost predicate Inserting(key: SortKey, dir: Direction, s: seq<Token>, i: int, j: int)
  {
    && 0 <= j <= i < |s|
    && (forall p, q :: 0 <= p < q <= i && p != j && q != j ==> Compare(key, dir, s[p], s[q]) <= 0)
    && (forall q :: j < q <= i ==> Compare(key, dir, s[j], s[q]) <= 0)
  }

  lemma InsertionStarts(key: SortKey, dir: Direction, s: seq<Token>, i: int)
    requires 0 <= i < |s| && SortedBelow(key, dir, s, i)
    ensures Inserting(key, dir, s, i, i)
  {
  }

  /** Swapping the moving record with a strictly later neighbour keeps the pass's state. */
  lemma InsertionSteps(key: SortKey, dir: Direction, s: seq<Token>, i: int, j: int)
    requires Inserting(key, dir, s, i, j) && j > 0
    requires Compare(key, dir, s[j - 1], s[j]) > 0
    ensures Inserting(key, dir, s[j - 1 := s[j]][j := s[j - 1]], i, j - 1)
  {
    CompareAntisymmetric(key, dir, s[j - 1], s[j]);
  }

  /** Where the moving record stops, `s[..i + 1]` is sorted. */
  lemma InsertionCloses(key: SortKey, dir: Direction, s: seq<Token>, i: int, j: int)
    requires Inserting(key, dir, s, i, j)
    requires j == 0 || Compare(key, dir, s[j - 1], s[j]) <= 0
    ensures SortedBelow(key, dir, s, i + 1)
  {
    if j > 0 {
      forall p | 0 <= p < j - 1
        ensures Compare(key, dir, s[p], s[j]) <= 0
      {
        CompareTransitive(key, dir, s[p], s[j - 1], s[j]);
      }
    }
  }

  /**
   One pass of the insertion sort: with `a[..i]` sorted, moves `a[i]` down past
   every record that the comparator puts strictly after it.
   */
  method InsertDown(a: array<Token>, i: int, key: SortKey, dir: Direction)
    requires 0 <= i < a.Length
    requires SortedBelow(key, dir, a[..], i)
    modifies a
    ensures SortedBelow(key, dir, a[..], i + 1)
    ensures multiset(a[..]) == multiset(old(a[..]))
    ensures SameTies(key, a[..], old(a[..]))
  {
    InsertionStarts(key, dir, a[..], i);
    var j := i;
    while j > 0 && Compare(key, dir, a[j - 1], a[j]) > 0
      invariant Inserting(key, dir, a[..], i, j)
      invariant multiset(a[..]) == multiset(old(a[..]))
      invariant SameTies(key, a[..], old(a[..]))
    {
      ghost var before := a[..];
      InsertionSteps(key, dir, before, i, j);
      SwapDown(a, j, key, dir);
      assert a[..] == before[j - 1 := before[j]][j := before[j - 1]];
      SameTiesTransitive(key, a[..], before, old(a[..]));
      j := j - 1;
    }
    InsertionCloses(key, dir, a[..], i, j);
  }

  /**
   Sorts `a` in place the way `processedTokens.sort(comparator)` does: the
   result is ordered by the comparator, is a permutation of the input, and
   keeps tied records in their input order.
   */
  method StableSort(a: array<Token>, key: SortKey, dir: Direction)
    modifies a
    ensures Sorted(key, dir, a[..])
    ensures multiset(a[..]) == multiset(old(a[..]))
    ensures SameTies(key, a[..], old(a[..]))
  {
    var i := 0;
    while i < a.Length
      invariant 0 <= i <= a.Length
      invariant SortedBelow(key, dir, a[..], i)
      invariant multiset(a[..]) == multiset(old(a[..]))
      invariant SameTies(key, a[..], old(a[..]))
    {
      ghost var before := a[..];
      InsertDown(a, i, key, dir);
      SameTiesTransitive(key, a[..], before, old(a[..]));
      i := i + 1;
    }
    assert a[..][..a.Length] == a[..];
  }
}
