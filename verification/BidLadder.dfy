/** bid_ladder: a bounded vector of price levels in decreasing order, edited in place, that stands
    in for an unbounded book. */
module BidLadder {

  datatype Level = Level(price: real, depth: real)

  ghost predicate Decreasing(ls: seq<Level>) {
    forall i, j :: 0 <= i < j < |ls| ==> ls[i].price > ls[j].price
  }

  /** A book without bound: what depth each price has. */
  type Book = map<real, real>

  /** std::lower_bound under price_greater: how many levels are better than the price. */
  function Rank(ls: seq<Level>, price: real): (r: nat)
    ensures r <= |ls|
    ensures forall i :: 0 <= i < r ==> ls[i].price > price
    ensures r < |ls| ==> ls[r].price <= price
  {
    if ls == [] || ls[0].price <= price then 0 else 1 + Rank(ls[1..], price)
  }

  predicate Present(ls: seq<Level>, price: real) {
    var r := Rank(ls, price);
    r < |ls| && ls[r].price == price
  }

  /** The level overwritten where it stands, or inserted where it belongs. */
  function Placed(ls: seq<Level>, price: real, depth: real): seq<Level> {
    var r := Rank(ls, price);
    if Present(ls, price) then ls[r := Level(price, depth)]
    else ls[..r] + [Level(price, depth)] + ls[r..]
  }

  function Erased(ls: seq<Level>, price: real): seq<Level> {
    var r := Rank(ls, price);
    if Present(ls, price) then ls[..r] + ls[r + 1..] else ls
  }

  function Best(ls: seq<Level>, n: nat): seq<Level> {
    if |ls| <= n then ls else ls[..n]
  }

  /** bid_ladder::set. */
  function LevelsAfter(ls: seq<Level>, maxLevels: nat, price: real, depth: real): seq<Level> {
    if Present(ls, price) then
      if depth == 0.0 then Erased(ls, price) else Placed(ls, price, depth)
    else
      Best(Placed(ls, price, depth), maxLevels)
  }

  class Ladder {
    var levels: seq<Level>
    var maxLevels: nat

    constructor (max: nat := 1024)
      ensures levels == [] && maxLevels == max
    {
      levels := [];
      maxLevels := max;
    }

    method LowerBound(price: real) returns (first: nat)
      requires Decreasing(levels)
      ensures first == Rank(levels, price)
    {
      first := 0;
      var count := |levels|;
      while count > 0
        invariant 0 <= count && first + count <= |levels|
        invariant forall i :: 0 <= i < first ==> levels[i].price > price
        invariant forall i :: first + count <= i < |levels| ==> levels[i].price <= price
        decreases count
      {
        var step := count / 2;
        if levels[first + step].price > price {
          first := first + step + 1;
          count := count - (step + 1);
        } else {
          count := step;
        }
      }
      assert first < |levels| ==> levels[first].price <= price;
    }

    method Set(price: real, depth: real)
      requires Decreasing(levels)
      modifies `levels
      ensures levels == LevelsAfter(old(levels), maxLevels, price, depth)
    {
      var iter := LowerBound(price);
      if iter != |levels| {
        if levels[iter].price == price {
          if depth == 0.0 {
            levels := levels[..iter] + levels[iter + 1..];
          } else {
            levels := levels[iter := levels[iter].(depth := depth)];
          }
          return;
        }
      }
      levels := levels[..iter] + [Level(price, depth)] + levels[iter..];
      ghost var placed := levels;
      while |levels| > maxLevels
        invariant levels <= placed
        invariant |levels| >= maxLevels || levels == placed
        decreases |levels|
      {
        levels := levels[..|levels| - 1];
      }
    }
  }

  // ----- a decreasing vector as a book -----

  /** ls lists exactly the book, best price first. */
  ghost predicate Lists(ls: seq<Level>, book: Book) {
    && Decreasing(ls)
    && (forall i :: 0 <= i < |ls| ==> ls[i].price in book && book[ls[i].price] == ls[i].depth)
    && (forall p | p in book :: HasPrice(ls, p))
  }

  ghost predicate HasPrice(ls: seq<Level>, price: real) {
    exists i :: 0 <= i < |ls| && ls[i].price == price
  }

  lemma {:induction false} PresentIffInBook(ls: seq<Level>, book: Book, price: real)
    requires Lists(ls, book)
    ensures Present(ls, price) <==> price in book
  {
    if price in book {
      assert HasPrice(ls, price);
      var i :| 0 <= i < |ls| && ls[i].price == price;
      assert i == Rank(ls, price);
    }
  }

  lemma {:induction false} SameBookHead(ls: seq<Level>, ms: seq<Level>, book: Book)
    requires Lists(ls, book) && Lists(ms, book) && ls != []
    ensures ms != [] && ls[0] == ms[0]
  {
    assert HasPrice(ms, ls[0].price);
    assert HasPrice(ls, ms[0].price);
  }

  /** There is one listing of a book. */
  lemma {:induction false} ListsUnique(ls: seq<Level>, ms: seq<Level>, book: Book)
    requires Lists(ls, book) && Lists(ms, book)
    ensures ls == ms
  {
    if ls == [] {
      if ms != [] { SameBookHead(ms, ls, book); }
    } else {
      SameBookHead(ls, ms, book);
      TailLists(ls, book);
      TailLists(ms, book);
      ListsUnique(ls[1..], ms[1..], book - {ls[0].price});
      assert ls == [ls[0]] + ls[1..] && ms == [ms[0]] + ms[1..];
    }
  }

  lemma {:induction false} TailLists(ls: seq<Level>, book: Book)
    requires Lists(ls, book) && ls != []
    ensures Lists(ls[1..], book - {ls[0].price})
  {
    forall p | p in book - {ls[0].price} ensures HasPrice(ls[1..], p) {
      assert HasPrice(ls, p);
      var i :| 0 <= i < |ls| && ls[i].price == p;
      assert ls[1..][i - 1] == ls[i];
    }
  }

  lemma {:induction false} BelowRank(ls: seq<Level>, price: real)
    requires Decreasing(ls)
    ensures forall i :: Rank(ls, price) < i < |ls| ==> ls[i].price < price
    ensures Rank(ls, price) < |ls| && !Present(ls, price) ==> ls[Rank(ls, price)].price < price
  {}

  lemma {:induction false} PlacedDecreasing(ls: seq<Level>, price: real, depth: real)
    requires Decreasing(ls)
    ensures Decreasing(Placed(ls, price, depth))
  {
    BelowRank(ls, price);
  }

  lemma {:induction false} PlacedKeeps(ls: seq<Level>, price: real, depth: real, l: Level)
    requires Decreasing(ls) && l in ls && l.price != price
    ensures l in Placed(ls, price, depth)
  {
    var r, ms := Rank(ls, price), Placed(ls, price, depth);
    var i :| 0 <= i < |ls| && ls[i] == l;
    assert ms[if i < r || Present(ls, price) then i else i + 1] == ls[i];
  }

  /** Every level placed is the new one or an old one at another price, and every old one stays. */
  lemma {:induction false} PlacedElements(ls: seq<Level>, price: real, depth: real)
    requires Decreasing(ls)
    ensures forall l | l in Placed(ls, price, depth) :: l == Level(price, depth) || (l in ls && l.price != price)
    ensures forall l | l in ls && l.price != price :: l in Placed(ls, price, depth)
    ensures Level(price, depth) in Placed(ls, price, depth)
  {
    BelowRank(ls, price);
    forall l | l in ls && l.price != price ensures l in Placed(ls, price, depth) {
      PlacedKeeps(ls, price, depth, l);
    }
    assert Placed(ls, price, depth)[Rank(ls, price)] == Level(price, depth);
  }

  lemma {:induction false} ErasedKeeps(ls: seq<Level>, price: real, l: Level)
    requires Decreasing(ls) && l in ls && l.price != price
    ensures l in Erased(ls, price)
  {
    var r, ms := Rank(ls, price), Erased(ls, price);
    var i :| 0 <= i < |ls| && ls[i] == l;
    if Present(ls, price) { assert ms[if i < r then i else i - 1] == ls[i]; }
  }

  lemma {:induction false} ErasedDrops(ls: seq<Level>, price: real, l: Level)
    requires Decreasing(ls) && l in Erased(ls, price)
    ensures l in ls && l.price != price
  {
    BelowRank(ls, price);
    var r, ms := Rank(ls, price), Erased(ls, price);
    var i :| 0 <= i < |ms| && ms[i] == l;
    if Present(ls, price) { assert l == ls[if i < r then i else i + 1]; }
  }

  lemma {:induction false} ErasedDecreasing(ls: seq<Level>, price: real)
    requires Decreasing(ls)
    ensures Decreasing(Erased(ls, price))
  {}

  /** Erasing keeps exactly the levels at other prices. */
  lemma {:induction false} ErasedElements(ls: seq<Level>, price: real)
    requires Decreasing(ls)
    ensures Decreasing(Erased(ls, price))
    ensures forall l | l in Erased(ls, price) :: l in ls && l.price != price
    ensures forall l | l in ls && l.price != price :: l in Erased(ls, price)
  {
    ErasedDecreasing(ls, price);
    forall l | l in Erased(ls, price) ensures l in ls && l.price != price {
      ErasedDrops(ls, price, l);
    }
    forall l | l in ls && l.price != price ensures l in Erased(ls, price) {
      ErasedKeeps(ls, price, l);
    }
  }

  /** Lists, in terms of elements alone. */
  lemma {:induction false} ListsFromElements(ls: seq<Level>, book: Book)
    requires Decreasing(ls)
    requires forall l | l in ls :: l.price in book && book[l.price] == l.depth
    requires forall p | p in book :: Level(p, book[p]) in ls
    ensures Lists(ls, book)
  {}

  lemma {:induction false} ListedLevel(ls: seq<Level>, book: Book, price: real)
    requires Lists(ls, book) && price in book
    ensures Level(price, book[price]) in ls
  {
    assert HasPrice(ls, price);
    var i :| 0 <= i < |ls| && ls[i].price == price;
    assert ls[i] == Level(price, book[price]);
  }

  /** Placing a level is the map update. */
  lemma {:induction false} PlacedLists(ls: seq<Level>, book: Book, price: real, depth: real)
    requires Lists(ls, book)
    ensures Lists(Placed(ls, price, depth), book[price := depth])
  {
    PlacedElements(ls, price, depth);
    PlacedDecreasing(ls, price, depth);
    forall p | p in book ensures Level(p, book[p]) in ls { ListedLevel(ls, book, p); }
    ListsFromElements(Placed(ls, price, depth), book[price := depth]);
  }

  /** Erasing a level is the map deletion. */
  lemma {:induction false} ErasedLists(ls: seq<Level>, book: Book, price: real)
    requires Lists(ls, book)
    ensures Lists(Erased(ls, price), book - {price})
  {
    ErasedElements(ls, price);
    forall p | p in book ensures Level(p, book[p]) in ls { ListedLevel(ls, book, p); }
    ListsFromElements(Erased(ls, price), book - {price});
  }
}
