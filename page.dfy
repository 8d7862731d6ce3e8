/**
 The home page (app/page.tsx): the derived list the table renders (filter
 by the active category, then sort a copy), the header-click toggle, the
 simulated ticker's cache update, and the loading/empty guard.
 */
module Page {
  import opened Types
  import opened Sorting
  import opened TextOrder
  import TokenTable

  /** `tokens || []`: the cached list, or empty while nothing is cached. */
  function SourceList(tokens: Option<seq<Token>>): (s: seq<Token>)
    ensures tokens.None? ==> s == []
    ensures tokens.Some? ==> s == tokens.value
  {
    match tokens
    case None => []
    case Some(ts) => ts
  }

  /** `.filter(token => token.category === activeCategory)` */
  function Filter(s: seq<Token>, c: Category): (r: seq<Token>)
    ensures |r| <= |s|
    ensures forall t :: t in r ==> t in s && t.category == c
  {
    if s == [] then []
    else (if s[0].category == c then [s[0]] else []) + Filter(s[1..], c)
  }

  /**
   Filtering distributes over concatenation: the kept records appear in the
   order they have in the source.
   */
  lemma {:induction false} FilterAppend(s: seq<Token>, t: seq<Token>, c: Category)
    ensures Filter(s + t, c) == Filter(s, c) + Filter(t, c)
  {
    if s != [] {
      assert (s + t)[1..] == s[1..] + t;
      FilterAppend(s[1..], t, c);
    } else {
      assert s + t == t;
    }
  }

  /** Each record of the active category appears in the filtered list exactly as often as in the source, and no other record does. */
  lemma {:induction false} FilterCounts(s: seq<Token>, c: Category, t: Token)
    ensures multiset(Filter(s, c))[t] == if t.category == c then multiset(s)[t] else 0
  {
    if s != [] {
      var head := if s[0].category == c then [s[0]] else [];
      FilterCounts(s[1..], c, t);
      assert s == [s[0]] + s[1..];
      assert multiset(s)[t] == multiset([s[0]])[t] + multiset(s[1..])[t];
      assert multiset(Filter(s, c))[t] == multiset(head)[t] + multiset(Filter(s[1..], c))[t];
    }
  }

  /**
   `filteredAndSortedTokens`: copies the cached list, keeps the records of the
   active category and, when a sort is configured, sorts that copy in place.
   */
  method FilteredAndSortedTokens(tokens: Option<seq<Token>>, activeCategory: Category, sortConfig: SortConfig)
    returns (r: seq<Token>)
    ensures forall t :: t in r ==> t.category == activeCategory
    ensures forall t ::
      multiset(r)[t] == (if t.category == activeCategory then multiset(SourceList(tokens))[t] else 0)
    ensures sortConfig.NoSort? ==> r == Filter(SourceList(tokens), activeCategory)
    ensures sortConfig.SortBy? ==>
      && Sorted(sortConfig.key, sortConfig.direction, r)
      && SameTies(sortConfig.key, r, Filter(SourceList(tokens), activeCategory))
  {
    var processed := SourceList(tokens);
    processed := Filter(processed, activeCategory);
    var copy := new Token[|processed|](i requires 0 <= i < |processed| => processed[i]);
    assert copy[..] == processed;
    if sortConfig.SortBy? {
      StableSort(copy, sortConfig.key, sortConfig.direction);
    }
    r := copy[..];
    forall t
      ensures multiset(r)[t] == if t.category == activeCategory then multiset(SourceList(tokens))[t] else 0
    {
      FilterCounts(SourceList(tokens), activeCategory, t);
    }
  }

  /**
   The derivation is a function of its inputs: any two lists that meet its
   sorted case's contract for the same source, category and configuration
   are equal, so recomputing it gives a value-equal list.
   */
  lemma DerivationDetermined(source: seq<Token>, c: Category, key: SortKey, dir: Direction, r1: seq<Token>, r2: seq<Token>)
    requires Sorted(key, dir, r1) && SameTies(key, r1, Filter(source, c))
    requires Sorted(key, dir, r2) && SameTies(key, r2, Filter(source, c))
    ensures r1 == r2
  {
    SameTiesSymmetric(key, r2, Filter(source, c));
    SameTiesTransitive(key, r1, Filter(source, c), r2);
    SortedTiesUnique(key, dir, r1, r2);
  }

  /** Two records of one category: "B" with TVL 10 listed before "A" with TVL 20. */
  const RecordB: Token := Token("1", "B", "b", "", 1.0, 0.0, 10.0, 0.0, New)
  const RecordA: Token := Token("2", "A", "a", "", 1.0, 0.0, 20.0, 0.0, New)

  /**
   Two records the comparator orders strictly, placed in that order, are
   sorted and keep the tie groups of the reversed pair.
   */
  lemma PairSorted(key: SortKey, dir: Direction, x: Token, y: Token)
    requires Compare(key, dir, x, y) < 0
    ensures Sorted(key, dir, [x, y])
    ensures SameTies(key, [x, y], [y, x])
  {
    forall v
      ensures Ties(key, [x, y], v) == Ties(key, [y, x], v)
    {
      TiesOfPair(key, x, y, v);
    }
  }

  /** Sorting the pair by name, ascending, lists "A" before "B". */
  lemma NameAscendingScenario(r: seq<Token>)
    requires Sorted(NameKey, Ascending, r) && SameTies(NameKey, r, Filter([RecordB, RecordA], New))
    ensures r == [RecordA, RecordB]
  {
    assert Lower("A") == "a" && Lower("B") == "b";
    assert LexLess("a", "b");
    assert Filter([RecordB, RecordA], New) == [RecordB, RecordA] by {
      assert [RecordB, RecordA][1..] == [RecordA];
      assert [RecordA][1..] == [];
    }
    PairSorted(NameKey, Ascending, RecordA, RecordB);
    DerivationDetermined([RecordB, RecordA], New, NameKey, Ascending, r, [RecordA, RecordB]);
  }

  /** Sorting the pair by TVL, descending, lists the TVL-20 record first. */
  lemma TvlDescendingScenario(r: seq<Token>)
    requires Sorted(TvlKey, Descending, r) && SameTies(TvlKey, r, Filter([RecordB, RecordA], New))
    ensures r == [RecordA, RecordB]
  {
    assert Filter([RecordB, RecordA], New) == [RecordB, RecordA] by {
      assert [RecordB, RecordA][1..] == [RecordA];
      assert [RecordA][1..] == [];
    }
    PairSorted(TvlKey, Descending, RecordA, RecordB);
    DerivationDetermined([RecordB, RecordA], New, TvlKey, Descending, r, [RecordA, RecordB]);
  }

  /**
   `handleSort(key)`: the requested key, ascending only when the current
   configuration is that key descending, descending otherwise.
   */
  function HandleSort(sortConfig: SortConfig, key: SortKey): (r: SortConfig)
    ensures r.SortBy? && r.key == key
    ensures r.direction == Ascending <==> sortConfig.SortBy? && sortConfig.key == key && sortConfig.direction == Descending
  {
    var direction :=
      if sortConfig.SortBy? && sortConfig.key == key && sortConfig.direction == Descending
      then Ascending else Descending;
    SortBy(key, direction)
  }

  /**
   Requesting the same key again always flips the direction, and a key not
   currently sorted on always starts descending.
   */
  lemma HandleSortToggles(sortConfig: SortConfig, key: SortKey)
    ensures HandleSort(HandleSort(sortConfig, key), key).direction != HandleSort(sortConfig, key).direction
    ensures sortConfig.NoSort? || sortConfig.key != key ==> HandleSort(sortConfig, key) == SortBy(key, Descending)
  {
  }

  /**
   Clicking the header at `column` leaves exactly that column showing an
   arrow: the down arrow the first time, then alternating.
   */
  lemma HeaderClickMarksColumn(sortConfig: SortConfig, column: nat)
    requires column < |TokenTable.Headers|
    ensures var views := TokenTable.HeaderViews(HandleSort(sortConfig, TokenTable.HeaderKey(column)));
      && views[column].icon != TokenTable.NoIcon
      && (forall j :: 0 <= j < |views| && j != column ==> views[j].icon == TokenTable.NoIcon)
      && (views[column].icon == TokenTable.ArrowUp <==> sortConfig == SortBy(TokenTable.HeaderKey(column), Descending))
  {
  }

  // ---- The simulated ticker -------------------------------------------------

  /** The `Math.random()` draws of one tick; each lies in [0, 1). */
  datatype Draws = Draws(pick: real, priceJitter: real, changeJitter: real, volumeJitter: real)

  predicate ValidDraws(d: Draws)
  {
    && 0.0 <= d.pick < 1.0
    && 0.0 <= d.priceJitter < 1.0
    && 0.0 <= d.changeJitter < 1.0
    && 0.0 <= d.volumeJitter < 1.0
  }

  /** `Math.floor(Math.random() * currentTokens.length)` */
  function PickIndex(length: nat, pick: real): (i: nat)
    requires length > 0 && 0.0 <= pick < 1.0
    ensures i < length
  {
    var x := pick * length as real;
    assert 0.0 <= x < length as real by {
      assert pick * length as real <= 1.0 * length as real;
    }
    x.Floor
  }

  /** `price * (1 + (Math.random() - 0.5) * 0.05)`: falls by at most 2.5% and rises by less than 2.5%. */
  function NewPrice(price: real, jitter: real): (p: real)
    requires 0.0 <= jitter < 1.0
    ensures price > 0.0 ==> 0.0 < price * 0.975 <= p < price * 1.025
  {
    price * (1.0 + (jitter - 0.5) * 0.05)
  }

  /** The record the updater writes for a token whose id matches. */
  function Ticked(t: Token, newPrice: real, changeJitter: real, volumeJitter: real): Token
  {
    t.(price := newPrice,
       priceChange24h := t.priceChange24h + (changeJitter - 0.5) * 0.1,
       volume24h := t.volume24h + volumeJitter * 10000.0)
  }

  /** The fields a tick never touches. */
  predicate SameIdentity(t: Token, u: Token)
  {
    t.id == u.id && t.name == u.name && t.slug == u.slug && t.logo == u.logo &&
    t.tvl == u.tvl && t.category == u.category
  }

  /**
   The updater passed to `setQueryData`: an empty list when nothing is
   cached; otherwise the same records in the same order, where those whose id
   matches get the new price, a 24h change moved by at least -0.05 and less
   than +0.05, and a 24h
   volume raised by less than 10000, and every other record is unchanged.
   */
  function UpdateCache(oldData: Option<seq<Token>>, id: string, newPrice: real, changeJitter: real, volumeJitter: real)
    : (r: seq<Token>)
    requires 0.0 <= changeJitter < 1.0 && 0.0 <= volumeJitter < 1.0
    ensures oldData.None? ==> r == []
    ensures oldData.Some? ==> |r| == |oldData.value|
    ensures oldData.Some? ==> forall i :: 0 <= i < |r| ==> SameIdentity(r[i], oldData.value[i])
    ensures oldData.Some? ==> forall i :: 0 <= i < |r| && oldData.value[i].id != id ==> r[i] == oldData.value[i]
    ensures oldData.Some? ==> forall i :: 0 <= i < |r| && oldData.value[i].id == id ==>
      && r[i].price == newPrice
      && -0.05 <= r[i].priceChange24h - oldData.value[i].priceChange24h < 0.05
      && oldData.value[i].volume24h <= r[i].volume24h < oldData.value[i].volume24h + 10000.0
  {
    match oldData
    case None => []
    case Some(ts) =>
      seq(|ts|, i requires 0 <= i < |ts| =>
        if ts[i].id == id then Ticked(ts[i], newPrice, changeJitter, volumeJitter) else ts[i])
  }

  /**
   One tick of the interval: nothing happens when the cache is missing or
   empty; otherwise the picked record's id is updated in the cache.
   */
  function Tick(cache: Option<seq<Token>>, d: Draws): (r: Option<seq<Token>>)
    requires ValidDraws(d)
    ensures cache.None? || cache.value == [] ==> r == cache
    ensures cache.Some? && cache.value != [] ==>
      var k := PickIndex(|cache.value|, d.pick);
      && r.Some? && |r.value| == |cache.value|
      && r.value[k].price == NewPrice(cache.value[k].price, d.priceJitter)
      && -0.05 <= r.value[k].priceChange24h - cache.value[k].priceChange24h < 0.05
      && cache.value[k].volume24h <= r.value[k].volume24h < cache.value[k].volume24h + 10000.0
      && (forall i :: 0 <= i < |r.value| ==> SameIdentity(r.value[i], cache.value[i]))
      && (forall i :: 0 <= i < |r.value| && cache.value[i].id != cache.value[k].id ==> r.value[i] == cache.value[i])
  {
    if cache.None? || |cache.value| == 0 then cache
    else
      var current := cache.value;
      var tokenToUpdate := current[PickIndex(|current|, d.pick)];
      var newPrice := NewPrice(tokenToUpdate.price, d.priceJitter);
      Some(UpdateCache(cache, tokenToUpdate.id, newPrice, d.changeJitter, d.volumeJitter))
  }

  /** Ids are unique, as the mock data's are. */
  ghost predicate UniqueIds(s: seq<Token>)
  {
    forall i, j :: 0 <= i < j < |s| ==> s[i].id != s[j].id
  }

  /**
   With unique ids a tick changes the picked record only: its price falls by
   at most 2.5% or rises by less than 2.5%, and every other record stays equal. Ids, names, slugs,
   logos, TVL and categories of all records are kept, so ids stay unique.
   */
  lemma TickTouchesPickedOnly(cache: seq<Token>, d: Draws)
    requires ValidDraws(d) && cache != [] && UniqueIds(cache)
    ensures var k := PickIndex(|cache|, d.pick);
      var r := Tick(Some(cache), d).value;
      && |r| == |cache|
      && (forall i :: 0 <= i < |r| && i != k ==> r[i] == cache[i])
      && r[k].price == NewPrice(cache[k].price, d.priceJitter)
      && cache[k].volume24h <= r[k].volume24h
      && (forall i :: 0 <= i < |r| ==> SameIdentity(r[i], cache[i]))
      && UniqueIds(r)
  {
  }

  /** Positive prices stay positive and volumes never shrink, tick after tick. */
  lemma {:induction false} TicksKeepPricesPositive(cache: seq<Token>, ds: seq<Draws>)
    requires forall k :: 0 <= k < |ds| ==> ValidDraws(ds[k])
    requires forall i :: 0 <= i < |cache| ==> cache[i].price > 0.0
    ensures var r := TickAll(Some(cache), ds).value;
      && |r| == |cache|
      && (forall i :: 0 <= i < |r| ==> r[i].price > 0.0 && r[i].volume24h >= cache[i].volume24h)
      && (forall i :: 0 <= i < |r| ==> SameIdentity(r[i], cache[i]))
    decreases |ds|
  {
    if ds != [] {
      var next := Tick(Some(cache), ds[0]).value;
      TicksKeepPricesPositive(next, ds[1..]);
    }
  }

  /** Running the interval once per draw, in order. */
  function TickAll(cache: Option<seq<Token>>, ds: seq<Draws>): (r: Option<seq<Token>>)
    requires forall k :: 0 <= k < |ds| ==> ValidDraws(ds[k])
    ensures cache.None? ==> r.None?
    ensures cache.Some? ==> r.Some? && |r.value| == |cache.value|
    decreases |ds|
  {
    if ds == [] then cache else TickAll(Tick(cache, ds[0]), ds[1..])
  }

  // ---- What the page shows ---------------------------------------------------

  datatype Screen = Skeleton | Table(view: TokenTable.TableView)

  /**
   The skeleton stands in while loading or when the derived list is empty;
   otherwise the table shows one row per derived record, in order, under the
   header row for the current configuration.
   */
  function Render(isLoading: bool, derived: seq<Token>, sortConfig: SortConfig): (r: Screen)
    ensures r.Skeleton? <==> isLoading || derived == []
    ensures r.Table? ==>
      && |r.view.rows| == |derived|
      && (forall i :: 0 <= i < |derived| ==> r.view.rows[i].token == derived[i])
      && r.view.headers == TokenTable.HeaderViews(sortConfig)
  {
    if isLoading || |derived| == 0 then Skeleton
    else Table(TokenTable.Render(derived, sortConfig))
  }
}
