/** Runs of bid_ladder::set against a book that never forgets a level. */
module BidLadderProofs {
  import opened BidLadder
  import opened Collections

  datatype SetCall = SetCall(price: real, depth: real)

  /** The same rule without a bound. Like the ladder, it keeps a level of depth zero when zero is
      set at a price that has no level. */
  function BookSet(book: Book, call: SetCall): Book {
    if call.price in book && call.depth == 0.0 then book - {call.price}
    else book[call.price := call.depth]
  }

  function BookAfter(calls: seq<SetCall>): Book
    decreases |calls|
  {
    if calls == [] then map[] else BookSet(BookAfter(calls[..|calls| - 1]), calls[|calls| - 1])
  }

  function LadderSet(ls: seq<Level>, max: nat, call: SetCall): seq<Level> {
    LevelsAfter(ls, max, call.price, call.depth)
  }

  function LadderAfter(max: nat, calls: seq<SetCall>): seq<Level>
    decreases |calls|
  {
    if calls == [] then []
    else LadderSet(LadderAfter(max, calls[..|calls| - 1]), max, calls[|calls| - 1])
  }

  /** The levels popped off the back by one call. */
  function Dropped(ls: seq<Level>, max: nat, call: SetCall): seq<Level> {
    var placed := Placed(ls, call.price, call.depth);
    if Present(ls, call.price) || |placed| <= max then [] else placed[max..]
  }

  function Evicted(max: nat, calls: seq<SetCall>): set<real>
    decreases |calls|
  {
    if calls == [] then {}
    else
      var before := calls[..|calls| - 1];
      Evicted(max, before) +
      set l | l in Dropped(LadderAfter(max, before), max, calls[|calls| - 1]) :: l.price
  }

  // ----- every run, erasures included -----

  /** The ladder stays strictly decreasing and within its bound. */
  lemma {:induction false} LadderInvariant(max: nat, calls: seq<SetCall>)
    ensures Decreasing(LadderAfter(max, calls))
    ensures |LadderAfter(max, calls)| <= max
    decreases |calls|
  {
    if calls == [] {
    } else {
      LadderInvariant(max, calls[..|calls| - 1]);
      LadderSetInvariant(LadderAfter(max, calls[..|calls| - 1]), max, calls[|calls| - 1]);
    }
  }

  lemma {:induction false} LadderSetInvariant(ls: seq<Level>, max: nat, call: SetCall)
    requires Decreasing(ls) && |ls| <= max
    ensures Decreasing(LadderSet(ls, max, call)) && |LadderSet(ls, max, call)| <= max
  {
    PlacedDecreasing(ls, call.price, call.depth);
    ErasedDecreasing(ls, call.price);
  }

  /** A call made within the bound evicts at most one level. */
  lemma {:induction false} DropsAtMostOne(max: nat, calls: seq<SetCall>, call: SetCall)
    ensures |Dropped(LadderAfter(max, calls), max, call)| <= 1
  {
    LadderInvariant(max, calls);
  }

  lemma {:induction false} DroppedOrKept(ls: seq<Level>, max: nat, call: SetCall, l: Level)
    requires !Present(ls, call.price) && l in Placed(ls, call.price, call.depth)
    ensures l in LadderSet(ls, max, call) || l in Dropped(ls, max, call)
  {
    var placed := Placed(ls, call.price, call.depth);
    if |placed| > max { assert placed == placed[..max] + placed[max..]; }
  }

  lemma {:induction false} LadderSetElement(ls: seq<Level>, max: nat, call: SetCall, l: Level)
    requires Decreasing(ls) && l !in Dropped(ls, max, call)
    ensures l in LadderSet(ls, max, call) <==>
            if l.price != call.price then l in ls
            else l.depth == call.depth && !(Present(ls, call.price) && call.depth == 0.0)
  {
    PlacedElements(ls, call.price, call.depth);
    ErasedElements(ls, call.price);
    if !Present(ls, call.price) && l in Placed(ls, call.price, call.depth) {
      DroppedOrKept(ls, max, call, l);
    }
  }

  ghost predicate AgreeOn(ls: seq<Level>, book: Book, l: Level) {
    l in ls <==> l.price in book && book[l.price] == l.depth
  }

  lemma {:induction false} AgreeStep(ls: seq<Level>, book: Book, max: nat, call: SetCall, l: Level)
    requires Decreasing(ls) && l !in Dropped(ls, max, call) && AgreeOn(ls, book, l)
    requires l.price == call.price ==> (Present(ls, call.price) <==> call.price in book)
    ensures AgreeOn(LadderSet(ls, max, call), BookSet(book, call), l)
  {
    LadderSetElement(ls, max, call, l);
  }

  /** At every price above all evicted ones the ladder agrees with the book, level by level. */
  lemma {:induction false} AgreesAboveEvicted(max: nat, calls: seq<SetCall>, l: Level)
    requires forall e | e in Evicted(max, calls) :: l.price > e
    ensures AgreeOn(LadderAfter(max, calls), BookAfter(calls), l)
    decreases |calls|, 0
  {
    if calls == [] {
    } else {
      var before, call := calls[..|calls| - 1], calls[|calls| - 1];
      var ls := LadderAfter(max, before);
      assert forall e | e in Evicted(max, before) :: e in Evicted(max, calls);
      AgreesAboveEvicted(max, before, l);
      LadderInvariant(max, before);
      assert l in Dropped(ls, max, call) ==> l.price in Evicted(max, calls);
      if l.price == call.price { PresentAboveEvicted(max, before, call.price); }
      AgreeStep(ls, BookAfter(before), max, call, l);
    }
  }

  lemma {:induction false} PresentAboveEvicted(max: nat, calls: seq<SetCall>, price: real)
    requires forall e | e in Evicted(max, calls) :: price > e
    ensures Present(LadderAfter(max, calls), price) <==> price in BookAfter(calls)
    decreases |calls|, 1
  {
    var ls, book := LadderAfter(max, calls), BookAfter(calls);
    LadderInvariant(max, calls);
    if Present(ls, price) {
      AgreesAboveEvicted(max, calls, ls[Rank(ls, price)]);
    }
    if price in book {
      AgreesAboveEvicted(max, calls, Level(price, book[price]));
      var i :| 0 <= i < |ls| && ls[i].price == price;
      assert i == Rank(ls, price);
    }
  }

  // ----- when the ladder is exactly the best levels of the book -----

  ghost predicate IsBest(ls: seq<Level>, book: Book, max: nat) {
    exists full :: Lists(full, book) && ls == Best(full, max)
  }

  /** The best levels are as many as fit, and a level is among them exactly when fewer than that are at
      a higher price. */
  lemma {:induction false} BestAreBest(full: seq<Level>, max: nat, l: Level)
    requires Decreasing(full) && l in full
    ensures Decreasing(Best(full, max)) && |Best(full, max)| == if |full| <= max then |full| else max
    ensures l in Best(full, max) <==> |Higher(full, l.price)| < max
  {
    var i :| 0 <= i < |full| && full[i] == l;
    HigherPrefix(full, i);
    var best := Best(full, max);
    assert i < |best| ==> best[i] == l;
    if l in best {
      var k :| 0 <= k < |best| && best[k] == l;
      assert full[k] == l;
    }
  }

  function Higher(ls: seq<Level>, price: real): set<Level> { set h | h in ls && h.price > price }

  lemma {:induction false} HigherPrefix(ls: seq<Level>, i: nat)
    requires Decreasing(ls) && i < |ls|
    ensures |Higher(ls, ls[i].price)| == i
  {
    var prefix := ls[..i];
    assert Higher(ls, ls[i].price) == Elements(prefix) by {
      forall h | h in Higher(ls, ls[i].price) ensures h in prefix {
        var k :| 0 <= k < |ls| && ls[k] == h;
        assert prefix[k] == h;
      }
    }
    CountElements(prefix);
  }

  lemma {:induction false} EmptyBook(ls: seq<Level>, book: Book)
    requires Lists(ls, book) && ls == []
    ensures book == map[]
  {
    assert forall p | p in book :: HasPrice(ls, p);
    assert forall p: real :: p !in book;
  }

  lemma {:induction false} ListsCount(ls: seq<Level>, book: Book)
    requires Lists(ls, book)
    ensures |ls| == |book|
  {
    if ls == [] {
      EmptyBook(ls, book);
    } else {
      TailLists(ls, book);
      ListsCount(ls[1..], book - {ls[0].price});
      assert (book - {ls[0].price}).Keys == book.Keys - {ls[0].price};
    }
  }

  lemma {:induction false} RankInPrefix(full: seq<Level>, max: nat, price: real)
    requires Decreasing(full) && |full| > max
    ensures Rank(full[..max], price) == if Rank(full, price) < max then Rank(full, price) else max
  {
    var best, r := full[..max], Rank(full[..max], price);
    if r < max { assert best[r] == full[r]; }
    if Rank(full, price) < max { assert best[Rank(full, price)].price <= price; }
  }

  lemma {:induction false} InsertThenTake<T>(s: seq<T>, n: nat, r: nat, x: T)
    requires r <= |s| && n <= |s|
    ensures r <= n ==> (s[..n][..r] + [x] + s[..n][r..])[..n] == (s[..r] + [x] + s[r..])[..n]
    ensures n <= r ==> (s[..r] + [x] + s[r..])[..n] == s[..n]
  {
    var whole := s[..r] + [x] + s[r..];
    if r <= n {
      var part := s[..n][..r] + [x] + s[..n][r..];
      forall i | 0 <= i < n ensures part[i] == whole[i] {}
    }
  }

  /** Placing and trimming commute: a trimmed ladder places a level as the whole book would. */
  lemma {:induction false} TrimCommutes(full: seq<Level>, max: nat, price: real, depth: real)
    requires Decreasing(full)
    ensures Best(Placed(Best(full, max), price, depth), max) == Best(Placed(full, price, depth), max)
    ensures Present(Best(full, max), price) ==> |Placed(Best(full, max), price, depth)| <= max
  {
    if |full| > max {
      var r, l := Rank(full, price), Level(price, depth);
      RankInPrefix(full, max, price);
      InsertThenTake(full, max, r, l);
      if r >= max {
        assert Placed(full[..max], price, depth) == full[..max] + [l];
      } else if Present(full, price) {
        assert full[r := l][..max] == full[..max][r := l];
      }
    }
  }

  lemma {:induction false} EraseHidden(full: seq<Level>, max: nat, price: real)
    requires Decreasing(full) && Present(full, price) && !Present(Best(full, max), price)
    ensures Best(Erased(full, price), max) == Best(full, max)
    ensures Best(Placed(Best(full, max), price, 0.0), max) == Best(full, max)
  {
    if |full| > max {
      RankInPrefix(full, max, price);
    }
  }

  /** One call keeps the ladder the best part of the book unless it erases a level the ladder shows
      while the book holds more levels than fit: then one that was evicted should come back, and
      does not. This is exact. */
  lemma {:induction false} StepKeepsBestIff(full: seq<Level>, book: Book, max: nat, call: SetCall)
    requires Lists(full, book)
    ensures IsBest(LadderSet(Best(full, max), max, call), BookSet(book, call), max) <==>
            !(call.depth == 0.0 && Present(Best(full, max), call.price) && |book| > max)
  {
    var ls, p, d := Best(full, max), call.price, call.depth;
    ListsCount(full, book);
    PresentIffInBook(full, book, p);
    if |full| > max { RankInPrefix(full, max, p); }
    assert Present(ls, p) ==> Present(full, p);
    if d == 0.0 && Present(full, p) {
      var full' := Erased(full, p);
      ErasedLists(full, book, p);
      if Present(ls, p) {
        if |full| > max {
          if IsBest(Erased(ls, p), BookSet(book, call), max) {
            var other :| Lists(other, BookSet(book, call)) && Erased(ls, p) == Best(other, max);
            ListsUnique(other, full', BookSet(book, call));
          }
        }
      } else {
        EraseHidden(full, max, p);
        assert LadderSet(ls, max, call) == Best(full', max);
      }
    } else {
      var full' := Placed(full, p, d);
      PlacedLists(full, book, p, d);
      TrimCommutes(full, max, p, d);
      assert LadderSet(ls, max, call) == Best(full', max);
    }
  }

  /** No call of the run erases a shown level while the book is over-full. */
  ghost predicate Harmless(max: nat, calls: seq<SetCall>) {
    forall i :: 0 <= i < |calls| ==> HarmlessCall(max, calls[..i], calls[i])
  }

  ghost predicate HarmlessCall(max: nat, before: seq<SetCall>, call: SetCall) {
    !(call.depth == 0.0 && Present(LadderAfter(max, before), call.price) && |BookAfter(before)| > max)
  }

  /** After such a run the ladder is exactly the best levels of the whole book, in order, with the
      depths last written, even for prices that were evicted and set again. */
  lemma {:induction false} HarmlessRunIsBest(max: nat, calls: seq<SetCall>)
    requires Harmless(max, calls)
    ensures IsBest(LadderAfter(max, calls), BookAfter(calls), max)
    decreases |calls|
  {
    if calls == [] {
      assert Lists([], map[]) && Best([], max) == [];
    } else {
      var before, call := calls[..|calls| - 1], calls[|calls| - 1];
      HarmlessSnoc(max, calls);
      HarmlessRunIsBest(max, before);
      var full :| Lists(full, BookAfter(before)) && LadderAfter(max, before) == Best(full, max);
      StepKeepsBestIff(full, BookAfter(before), max, call);
    }
  }

  lemma {:induction false} HarmlessSnoc(max: nat, calls: seq<SetCall>)
    requires calls != []
    ensures var before := calls[..|calls| - 1];
            Harmless(max, calls) <==> Harmless(max, before) && HarmlessCall(max, before, calls[|calls| - 1])
  {
    var m := |calls| - 1;
    forall i | 0 <= i < m
      ensures HarmlessCall(max, calls[..m][..i], calls[..m][i]) <==> HarmlessCall(max, calls[..i], calls[i])
    {
      assert calls[..m][..i] == calls[..i];
    }
  }

  /** At every point of the run the ladder is the best part of the book. */
  ghost predicate BestThroughout(max: nat, calls: seq<SetCall>) {
    forall n :: 0 <= n <= |calls| ==> BestAfter(max, calls, n)
  }

  ghost predicate BestAfter(max: nat, calls: seq<SetCall>, n: nat)
    requires n <= |calls|
  {
    IsBest(LadderAfter(max, calls[..n]), BookAfter(calls[..n]), max)
  }

  lemma {:induction false} BestThroughoutSnoc(max: nat, calls: seq<SetCall>)
    requires calls != []
    ensures BestThroughout(max, calls) <==>
            BestThroughout(max, calls[..|calls| - 1]) && BestAfter(max, calls, |calls|)
  {
    var m := |calls| - 1;
    forall n | 0 <= n <= m ensures BestAfter(max, calls[..m], n) <==> BestAfter(max, calls, n) {
      assert calls[..m][..n] == calls[..n];
    }
  }

  /** The runs in which the ladder never stops being the best part of the book are exactly those. */
  lemma {:induction false} BestThroughoutIff(max: nat, calls: seq<SetCall>)
    ensures BestThroughout(max, calls) <==> Harmless(max, calls)
    decreases |calls|
  {
    if calls == [] {
      HarmlessRunIsBest(max, calls);
      assert calls[..0] == calls;
    } else {
      var before, call := calls[..|calls| - 1], calls[|calls| - 1];
      BestThroughoutIff(max, before);
      BestThroughoutSnoc(max, calls);
      HarmlessSnoc(max, calls);
      assert calls[..|calls|] == calls;
      if BestThroughout(max, before) {
        assert BestAfter(max, before, |before|) && before[..|before|] == before;
        var full :| Lists(full, BookAfter(before)) && LadderAfter(max, before) == Best(full, max);
        StepKeepsBestIff(full, BookAfter(before), max, call);
      }
    }
  }

  /** In particular, after any run that never sets a depth of zero. */
  lemma {:induction false} NonZeroRunIsBest(max: nat, calls: seq<SetCall>)
    requires forall c | c in calls :: c.depth != 0.0
    ensures IsBest(LadderAfter(max, calls), BookAfter(calls), max)
  {
    HarmlessRunIsBest(max, calls);
  }

  // ----- where the ladder differs from what one might expect -----

  /** Setting zero at a price without a level adds a level of depth zero. */
  lemma {:induction false} ZeroIsInserted(ls: seq<Level>, max: nat, price: real)
    requires Decreasing(ls) && !Present(ls, price)
    ensures Level(price, 0.0) in LevelsAfter(ls, max, price, 0.0) <==> Rank(ls, price) < max
  {
    var r, placed := Rank(ls, price), Placed(ls, price, 0.0);
    PlacedDecreasing(ls, price, 0.0);
    assert placed[r] == Level(price, 0.0);
    if |placed| > max {
      if r < max { assert placed[..max][r] == placed[r]; }
    }
  }

  /** A level that was evicted does not come back when room appears. */
  lemma {:induction false} EvictedLevelIsLost()
    ensures var calls := [SetCall(1.0, 5.0), SetCall(2.0, 6.0), SetCall(2.0, 0.0)];
            LadderAfter(1, calls) == [] && BookAfter(calls) == map[1.0 := 5.0]
  {
    var c1, c2, c3 := SetCall(1.0, 5.0), SetCall(2.0, 6.0), SetCall(2.0, 0.0);
    assert [c1, c2, c3][..2] == [c1, c2] && [c1, c2][..1] == [c1] && [c1][..0] == [];
    assert LadderAfter(1, [c1]) == [Level(1.0, 5.0)];
    assert LadderAfter(1, [c1, c2]) == [Level(2.0, 6.0)];
    assert BookAfter([c1]) == map[1.0 := 5.0];
    assert BookAfter([c1, c2]) == map[1.0 := 5.0, 2.0 := 6.0];
  }
}
