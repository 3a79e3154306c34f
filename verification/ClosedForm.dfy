/** What the matching loop does to a standing book, without the loop: the share of every opposite
    order follows from prefix sums of open quantities (`source/order_matcher/order_book.cpp`). */
module ClosedForm {
  import opened Orders
  import opened Matching

  function OpenTotal(s: seq<OrderState>): int {
    if s == [] then 0 else s[0].open + OpenTotal(s[1..])
  }

  predicate Crosses(taker: OrderState, maker: OrderState) {
    if taker.side == Buy then taker.price >= maker.price else maker.price >= taker.price
  }

  /** The quantity the i-th maker trades: what earlier makers left of the taker, capped by its own. */
  function Fill(taker: OrderState, makers: seq<OrderState>, i: nat): (q: int)
    requires i < |makers|
  {
    var left := taker.open - OpenTotal(makers[..i]);
    if !Crosses(taker, makers[i]) || left <= 0 then 0
    else if left < makers[i].open then left else makers[i].open
  }

  /** Trades print at the ask's price. */
  function TradePrice(taker: OrderState, maker: OrderState): real {
    if taker.side == Buy then maker.price else taker.price
  }

  function MakerAfter(taker: OrderState, makers: seq<OrderState>, i: nat): OrderState
    requires i < |makers|
  {
    Executed(makers[i], TradePrice(taker, makers[i]), Fill(taker, makers, i))
  }

  /** The taker after the first i makers have traded with it. */
  function TakerAfter(taker: OrderState, makers: seq<OrderState>, i: nat): OrderState
    requires i <= |makers|
  {
    if i == 0 then taker
    else Executed(TakerAfter(taker, makers, i - 1), TradePrice(taker, makers[i - 1]), Fill(taker, makers, i - 1))
  }

  /** Exactly the first t makers trade. */
  ghost predicate Touched(taker: OrderState, makers: seq<OrderState>, t: nat) {
    && t <= |makers|
    && (forall i | 0 <= i < t :: Fill(taker, makers, i) > 0)
    && (forall i | t <= i < |makers| :: Fill(taker, makers, i) == 0)
    && (forall i | 0 <= i < t - 1 :: Fill(taker, makers, i) == makers[i].open)
  }

  /** Bids come first in every pair of copies. */
  function Pair(side: Side, taker: OrderState, maker: OrderState): seq<OrderState> {
    if side == Buy then [taker, maker] else [maker, taker]
  }

  function TakerAt(side: Side, i: nat): nat {
    if side == Buy then 2 * i else 2 * i + 1
  }

  function MakerAt(side: Side, i: nat): nat {
    if side == Buy then 2 * i + 1 else 2 * i
  }

  ghost predicate TradesAre(taker: OrderState, makers: seq<OrderState>, t: nat, trades: seq<OrderState>) {
    && t <= |makers| && |trades| == 2 * t
    && (forall i | 0 <= i < t :: trades[MakerAt(taker.side, i)] == MakerAfter(taker, makers, i))
    && (forall i | 0 <= i < t :: trades[TakerAt(taker.side, i)] == TakerAfter(taker, makers, i + 1))
  }

  /** The opposite side afterwards: the touched makers are gone, but for a last one not filled. */
  function MakersLeft(taker: OrderState, makers: seq<OrderState>, t: nat): seq<OrderState>
    requires t <= |makers|
  {
    if t > 0 && Fill(taker, makers, t - 1) < makers[t - 1].open
    then [MakerAfter(taker, makers, t - 1)] + makers[t..]
    else makers[t..]
  }

  function Opposite(side: Side): Side {
    if side == Buy then Sell else Buy
  }

  function BookOf(side: Side, own: seq<OrderState>, other: seq<OrderState>): Book {
    if side == Buy then Book(own, other) else Book(other, own)
  }

  predicate Taking(o: OrderState) {
    o.side != NonSupported && Balanced(o) && o.open > 0 && o.executed >= 0
  }

  // ----- One step of the taker along the makers -----

  /** After the first maker is used up, the remaining shares are those of the shorter list. */
  lemma FillShift(taker: OrderState, makers: seq<OrderState>, i: nat)
    requires makers != [] && i < |makers| - 1
    requires Fill(taker, makers, 0) == makers[0].open
    ensures Fill(taker, makers, i + 1) == Fill(TakerAfter(taker, makers, 1), makers[1..], i)
  {
    assert makers[..i + 1][1..] == makers[1..][..i];
    assert TakerAfter(taker, makers, 1) ==
           Executed(TakerAfter(taker, makers, 0), TradePrice(taker, makers[0]), Fill(taker, makers, 0));
  }

  lemma {:induction false} TakerShift(taker: OrderState, makers: seq<OrderState>, i: nat)
    requires makers != [] && i <= |makers| - 1
    requires Fill(taker, makers, 0) == makers[0].open
    ensures TakerAfter(taker, makers, i + 1) == TakerAfter(TakerAfter(taker, makers, 1), makers[1..], i)
  {
    if i > 0 {
      TakerShift(taker, makers, i - 1);
      FillShift(taker, makers, i - 1);
    }
  }

  lemma FillFirst(taker: OrderState, maker: OrderState, makers: seq<OrderState>)
    requires Taking(taker) && makers != [] && makers[0] == maker && maker.open > 0
    ensures Fill(taker, makers, 0) ==
            if !Crosses(taker, maker) then 0 else if taker.open < maker.open then taker.open else maker.open
  {
    assert makers[..0] == [];
  }

  lemma OpenTotalPositive(s: seq<OrderState>, i: nat)
    requires i <= |s| && forall j | 0 <= j < |s| :: s[j].open > 0
    ensures OpenTotal(s[..i]) >= 0
    ensures i > 0 ==> OpenTotal(s[..i]) >= s[0].open
  {
    if i > 0 {
      assert s[..i][1..] == s[1..][..i - 1];
      OpenTotalPositive(s[1..], i - 1);
    }
  }

  // ----- The loop, seen from the taker -----

  ghost predicate Facing(taker: OrderState, own: seq<OrderState>, makers: seq<OrderState>, last: nat) {
    && Taking(taker)
    && SideOrdered(makers, Opposite(taker.side), last)
    && BookOf(taker.side, [taker] + own, makers).Balanced()
    && !BookOf(taker.side, own, makers).Crossed()
  }

  lemma RoundFacing(taker: OrderState, own: seq<OrderState>, makers: seq<OrderState>, last: nat)
    requires Facing(taker, own, makers, last) && makers != [] && Crosses(taker, makers[0])
    ensures var b := BookOf(taker.side, [taker] + own, makers);
            var next := TakerAfter(taker, makers, 1);
            && b.Crossed()
            && Round(b) == BookOf(taker.side, if next.open == 0 then own else [next] + own, MakersLeft(taker, makers, 1))
            && RoundTrades(b) == Pair(taker.side, next, MakerAfter(taker, makers, 0))
            && Fill(taker, makers, 0) > 0 && (next.open == 0 || Fill(taker, makers, 0) == makers[0].open)
  {
    var b := BookOf(taker.side, [taker] + own, makers);
    assert Resting(makers[0], Opposite(taker.side), last);
    FillFirst(taker, makers[0], makers);
    var next := TakerAfter(taker, makers, 1);
    assert next == Executed(TakerAfter(taker, makers, 0), TradePrice(taker, makers[0]), Fill(taker, makers, 0));
    var s := [taker] + own;
    assert s[1..] == own && s[0 := next] == [next] + own;
    assert makers[0 := MakerAfter(taker, makers, 0)] == [MakerAfter(taker, makers, 0)] + makers[1..];
  }

  /** The loop on a book whose top taker crosses: one trade, then the loop on what is left. */
  lemma MatchFacing(taker: OrderState, own: seq<OrderState>, makers: seq<OrderState>, last: nat) returns (left: Book)
    requires Facing(taker, own, makers, last) && makers != [] && Crosses(taker, makers[0])
    ensures var next := TakerAfter(taker, makers, 1);
            && left == BookOf(taker.side, if next.open == 0 then own else [next] + own, MakersLeft(taker, makers, 1))
            && left.Balanced()
            && Match(BookOf(taker.side, [taker] + own, makers)) ==
               Matched(Match(left).book, Pair(taker.side, next, MakerAfter(taker, makers, 0)) + Match(left).trades)
            && Fill(taker, makers, 0) > 0 && (next.open == 0 || Fill(taker, makers, 0) == makers[0].open)
  {
    RoundFacing(taker, own, makers, last);
    RoundShrinks(BookOf(taker.side, [taker] + own, makers));
    left := Round(BookOf(taker.side, [taker] + own, makers));
  }

  /** A run of the loop that traded the taker with exactly the first t makers. */
  ghost predicate Walked(taker: OrderState, own: seq<OrderState>, makers: seq<OrderState>, t: nat, m: Matched) {
    && Touched(taker, makers, t) && TradesAre(taker, makers, t, m.trades)
    && var end := TakerAfter(taker, makers, t);
       m.book == BookOf(taker.side, if end.open == 0 then own else [end] + own, MakersLeft(taker, makers, t))
  }

  /** By induction on the makers: the loop trades the taker along them as Fill says. */
  lemma {:induction false} Walk(taker: OrderState, own: seq<OrderState>, makers: seq<OrderState>, last: nat)
    returns (t: nat)
    requires Facing(taker, own, makers, last)
    ensures Walked(taker, own, makers, t, Match(BookOf(taker.side, [taker] + own, makers)))
    decreases |makers|
  {
    if makers == [] || !Crosses(taker, makers[0]) {
      WalkNone(taker, own, makers, last);
      return 0;
    }
    var next := TakerAfter(taker, makers, 1);
    if next.open == 0 {
      WalkLast(taker, own, makers, last);
      return 1;
    }
    FirstTaken(taker, own, makers, last);
    NextFacing(taker, own, makers, last);
    var u := Walk(next, own, makers[1..], last);
    WalkMore(taker, own, makers, last, u);
    return u + 1;
  }

  lemma FirstTaken(taker: OrderState, own: seq<OrderState>, makers: seq<OrderState>, last: nat)
    requires Facing(taker, own, makers, last) && makers != [] && Crosses(taker, makers[0])
    ensures Fill(taker, makers, 0) > 0
    ensures TakerAfter(taker, makers, 1).open != 0 ==> Fill(taker, makers, 0) == makers[0].open
  {
    RoundFacing(taker, own, makers, last);
  }

  /** The taker is filled by the first maker. */
  lemma WalkLast(taker: OrderState, own: seq<OrderState>, makers: seq<OrderState>, last: nat)
    requires Facing(taker, own, makers, last) && makers != [] && Crosses(taker, makers[0])
    requires TakerAfter(taker, makers, 1).open == 0
    ensures Walked(taker, own, makers, 1, Match(BookOf(taker.side, [taker] + own, makers)))
  {
    var left := MatchFacing(taker, own, makers, last);
    LastTaken(taker, own, makers, last);
  }

  /** The taker goes on behind the first maker. */
  lemma WalkMore(taker: OrderState, own: seq<OrderState>, makers: seq<OrderState>, last: nat, u: nat)
    requires Facing(taker, own, makers, last) && makers != [] && Crosses(taker, makers[0])
    requires var next := TakerAfter(taker, makers, 1);
             && next.open != 0 && BookOf(next.side, [next] + own, makers[1..]).Balanced()
             && Walked(next, own, makers[1..], u, Match(BookOf(next.side, [next] + own, makers[1..])))
    ensures Walked(taker, own, makers, u + 1, Match(BookOf(taker.side, [taker] + own, makers)))
  {
    var left := MatchFacing(taker, own, makers, last);
    assert MakersLeft(taker, makers, 1) == makers[1..];
    WalkOn(taker, own, makers, u, Match(left));
  }

  lemma WalkNone(taker: OrderState, own: seq<OrderState>, makers: seq<OrderState>, last: nat)
    requires Facing(taker, own, makers, last)
    requires makers == [] || !Crosses(taker, makers[0])
    ensures Walked(taker, own, makers, 0, Match(BookOf(taker.side, [taker] + own, makers)))
  {
    NoneCross(taker, makers, last);
    assert makers[0..] == makers;
  }

  lemma WalkOn(taker: OrderState, own: seq<OrderState>, makers: seq<OrderState>, u: nat, m: Matched)
    requires makers != [] && Fill(taker, makers, 0) == makers[0].open > 0
    requires Walked(TakerAfter(taker, makers, 1), own, makers[1..], u, m)
    requires TakerAfter(taker, makers, 1).side == taker.side
    ensures Walked(taker, own, makers, u + 1,
                   Matched(m.book, Pair(taker.side, TakerAfter(taker, makers, 1), MakerAfter(taker, makers, 0)) + m.trades))
  {
    TouchedShift(taker, makers, u);
    TradesShift(taker, makers, u, m.trades);
    TakerShift(taker, makers, u);
  }

  lemma NoneCross(taker: OrderState, makers: seq<OrderState>, last: nat)
    requires SideOrdered(makers, Opposite(taker.side), last)
    requires makers == [] || !Crosses(taker, makers[0])
    ensures Touched(taker, makers, 0)
  {
    forall i | 0 <= i < |makers| ensures !Crosses(taker, makers[i]) {
      if i > 0 { assert Before(Opposite(taker.side), makers[0], makers[i]); }
    }
  }

  lemma LastTaken(taker: OrderState, own: seq<OrderState>, makers: seq<OrderState>, last: nat)
    requires Facing(taker, own, makers, last) && makers != []
    requires Fill(taker, makers, 0) > 0 && TakerAfter(taker, makers, 1).open == 0
    ensures Touched(taker, makers, 1)
    ensures !BookOf(taker.side, own, MakersLeft(taker, makers, 1)).Crossed()
  {
    assert TakerAfter(taker, makers, 1).open == TakerAfter(taker, makers, 0).open - Fill(taker, makers, 0);
    assert forall j | 0 <= j < |makers| :: Resting(makers[j], Opposite(taker.side), last);
    FillFirst(taker, makers[0], makers);
    forall i | 1 <= i < |makers| ensures Fill(taker, makers, i) == 0 {
      OpenTotalPositive(makers, i);
    }
    if |makers| > 1 {
      assert Before(Opposite(taker.side), makers[0], makers[1]);
    }
  }

  lemma NextFacing(taker: OrderState, own: seq<OrderState>, makers: seq<OrderState>, last: nat)
    requires Facing(taker, own, makers, last) && makers != []
    requires Fill(taker, makers, 0) > 0 && Fill(taker, makers, 0) == makers[0].open
    requires TakerAfter(taker, makers, 1).open != 0
    ensures Facing(TakerAfter(taker, makers, 1), own, makers[1..], last)
  {
    var next := TakerAfter(taker, makers, 1);
    assert next == Executed(TakerAfter(taker, makers, 0), TradePrice(taker, makers[0]), Fill(taker, makers, 0));
    FillFirst(taker, makers[0], makers);
    var rest := makers[1..];
    assert forall i | 0 <= i < |own| :: own[i] == ([taker] + own)[i + 1];
    SideTail(makers, Opposite(taker.side), last);
    if rest != [] {
      assert Before(Opposite(taker.side), makers[0], makers[1]);
    }
  }

  lemma SideTail(s: seq<OrderState>, side: Side, last: nat)
    requires SideOrdered(s, side, last) && s != []
    ensures SideOrdered(s[1..], side, last)
  {
    var t := s[1..];
    forall i, j | 0 <= i < j < |t| ensures Before(side, t[i], t[j]) && t[i].id != t[j].id {
      assert Before(side, s[i + 1], s[j + 1]) && s[i + 1].id != s[j + 1].id;
    }
  }

  /** Results about the tail of the makers are results about all of them, one place further. */
  lemma TouchedShift(taker: OrderState, makers: seq<OrderState>, u: nat)
    requires makers != [] && Fill(taker, makers, 0) == makers[0].open > 0
    requires Touched(TakerAfter(taker, makers, 1), makers[1..], u)
    ensures Touched(taker, makers, u + 1)
    ensures MakersLeft(taker, makers, u + 1) == MakersLeft(TakerAfter(taker, makers, 1), makers[1..], u)
  {
    FillsShift(taker, makers);
    assert makers[u + 1..] == makers[1..][u..];
    if u > 0 { FillShift(taker, makers, u - 1); }
  }

  lemma FillsShift(taker: OrderState, makers: seq<OrderState>)
    requires makers != [] && Fill(taker, makers, 0) == makers[0].open > 0
    ensures forall i | 1 <= i < |makers| ::
              Fill(taker, makers, i) == Fill(TakerAfter(taker, makers, 1), makers[1..], i - 1)
  {
    forall i | 1 <= i < |makers|
      ensures Fill(taker, makers, i) == Fill(TakerAfter(taker, makers, 1), makers[1..], i - 1)
    {
      FillShift(taker, makers, i - 1);
    }
  }

  lemma PairConcatAt(side: Side, taker: OrderState, maker: OrderState, trades: seq<OrderState>, u: nat, i: nat)
    requires |trades| == 2 * u && i <= u
    ensures var all := Pair(side, taker, maker) + trades;
            && |all| == 2 * u + 2
            && all[MakerAt(side, i)] == (if i == 0 then maker else trades[MakerAt(side, i - 1)])
            && all[TakerAt(side, i)] == (if i == 0 then taker else trades[TakerAt(side, i - 1)])
  {
  }

  lemma TradesShift(taker: OrderState, makers: seq<OrderState>, u: nat, trades: seq<OrderState>)
    requires makers != [] && Fill(taker, makers, 0) == makers[0].open
    requires TradesAre(TakerAfter(taker, makers, 1), makers[1..], u, trades)
    ensures TradesAre(taker, makers, u + 1,
                      Pair(taker.side, TakerAfter(taker, makers, 1), MakerAfter(taker, makers, 0)) + trades)
  {
    var next, rest := TakerAfter(taker, makers, 1), makers[1..];
    var first := MakerAfter(taker, makers, 0);
    var all := Pair(taker.side, next, MakerAfter(taker, makers, 0)) + trades;
    forall i | 0 <= i < u + 1
      ensures all[MakerAt(taker.side, i)] == MakerAfter(taker, makers, i)
              && all[TakerAt(taker.side, i)] == TakerAfter(taker, makers, i + 1)
    {
      PairConcatAt(taker.side, next, first, trades, u, i);
      if i > 0 {
        TradesShiftAt(taker, makers, i - 1);
      }
    }
  }

  lemma TradesShiftAt(taker: OrderState, makers: seq<OrderState>, j: nat)
    requires makers != [] && Fill(taker, makers, 0) == makers[0].open && j < |makers| - 1
    ensures MakerAfter(taker, makers, j + 1) == MakerAfter(TakerAfter(taker, makers, 1), makers[1..], j)
    ensures TakerAfter(taker, makers, j + 2) == TakerAfter(TakerAfter(taker, makers, 1), makers[1..], j + 1)
  {
    FillShift(taker, makers, j);
    TakerShift(taker, makers, j + 1);
    assert TakerAfter(taker, makers, 1) ==
           Executed(TakerAfter(taker, makers, 0), TradePrice(taker, makers[0]), Fill(taker, makers, 0));
  }

  // ----- The theorem -----

  /** What the first t shares add up to. */
  lemma {:induction false} TakerOpen(taker: OrderState, makers: seq<OrderState>, t: nat)
    requires t <= |makers| && forall i | 0 <= i < t - 1 :: Fill(taker, makers, i) == makers[i].open
    ensures t > 0 ==>
      TakerAfter(taker, makers, t).open == taker.open - OpenTotal(makers[..t - 1]) - Fill(taker, makers, t - 1)
    ensures TakerAfter(taker, makers, t).side == taker.side && TakerAfter(taker, makers, t).price == taker.price
    ensures t == 0 ==> TakerAfter(taker, makers, t) == taker
  {
    if t > 1 {
      TakerOpen(taker, makers, t - 1);
      OpenStep(makers, t - 2);
    } else if t == 1 {
      assert makers[..0] == [] && TakerAfter(taker, makers, 0) == taker;
    }
  }

  lemma OpenStep(s: seq<OrderState>, i: nat)
    requires i < |s|
    ensures OpenTotal(s[..i + 1]) == OpenTotal(s[..i]) + s[i].open
  {
    assert s[..i + 1][1..] == s[1..][..i];
    if i > 0 {
      assert s[..i][1..] == s[1..][..i - 1];
      OpenStep(s[1..], i - 1);
    }
  }

  lemma OpenMonotone(s: seq<OrderState>, i: nat, j: nat)
    requires i <= j <= |s| && forall k | 0 <= k < |s| :: s[k].open > 0
    ensures OpenTotal(s[..i]) <= OpenTotal(s[..j])
    decreases j - i
  {
    if i < j {
      OpenStep(s, i);
      OpenMonotone(s, i + 1, j);
    }
  }

  /** The opposite orders whose price crosses; in a sorted side they come first. */
  function Crossing(taker: OrderState, makers: seq<OrderState>): seq<OrderState> {
    if makers == [] || !Crosses(taker, makers[0]) then [] else [makers[0]] + Crossing(taker, makers[1..])
  }

  lemma CrossingPrefix(taker: OrderState, makers: seq<OrderState>, last: nat)
    requires SideOrdered(makers, Opposite(taker.side), last)
    ensures Crossing(taker, makers) <= makers
    ensures forall i | 0 <= i < |makers| :: Crosses(taker, makers[i]) <==> i < |Crossing(taker, makers)|
  {
    if makers != [] && Crosses(taker, makers[0]) {
      SideTail(makers, Opposite(taker.side), last);
      CrossingPrefix(taker, makers[1..], last);
      forall i | 1 <= i < |makers| ensures Crosses(taker, makers[i]) <==> i < |Crossing(taker, makers)| {
        assert makers[i] == makers[1..][i - 1];
      }
    } else {
      forall i | 0 <= i < |makers| ensures !Crosses(taker, makers[i]) {
        if i > 0 { assert Before(Opposite(taker.side), makers[0], makers[i]); }
      }
    }
  }

  /** The taker ends with what the crossing orders could not cover: min(Q, crossing) is filled. */
  lemma FilledInAll(taker: OrderState, makers: seq<OrderState>, last: nat, t: nat)
    requires Taking(taker) && SideOrdered(makers, Opposite(taker.side), last) && Touched(taker, makers, t)
    ensures var crossing := OpenTotal(Crossing(taker, makers));
            taker.open - TakerAfter(taker, makers, t).open == if taker.open < crossing then taker.open else crossing
  {
    var c := |Crossing(taker, makers)|;
    assert forall j | 0 <= j < |makers| :: Resting(makers[j], Opposite(taker.side), last);
    TakenCross(taker, makers, last, t);
    TakerOpen(taker, makers, t);
    assert makers[..0] == [];
    if t > 0 { OpenStep(makers, t - 1); }
    OpenMonotone(makers, t, c);
  }

  /** The orders taken are crossing ones, and the next crossing one is left because nothing is left of the taker. */
  lemma TakenCross(taker: OrderState, makers: seq<OrderState>, last: nat, t: nat)
    requires SideOrdered(makers, Opposite(taker.side), last) && Touched(taker, makers, t)
    ensures var c := |Crossing(taker, makers)|;
            && t <= c <= |makers| && Crossing(taker, makers) == makers[..c]
            && (t < c ==> Crosses(taker, makers[t]) && Fill(taker, makers, t) == 0)
  {
    CrossingPrefix(taker, makers, last);
    if t > 0 { assert Fill(taker, makers, t - 1) > 0; }
  }

  /** The result of a submission in terms of the shares alone. */
  ghost predicate Outcome(o: OrderState, own: seq<OrderState>, makers: seq<OrderState>, t: nat, m: Matched) {
    && Touched(o, makers, t)
    && TradesAre(o, makers, t, m.trades)
    && m.book.Side(Opposite(o.side)) == MakersLeft(o, makers, t)
    && m.book.Side(o.side) == Rested(own, TakerAfter(o, makers, t))
  }

  /** What is left of the taker takes its place on its own side. */
  function Rested(own: seq<OrderState>, end: OrderState): seq<OrderState> {
    if end.open == 0 then own else Inserted(own, end)
  }

  lemma SubmitCrossing(b: Book, last: nat, o: OrderState) returns (t: nat)
    requires Standing(b, last) && Acceptable(o) && o.id == last + 1
    requires b.Side(Opposite(o.side)) != [] && Crosses(o, b.Side(Opposite(o.side))[0])
    ensures b.Balanced() && Outcome(o, b.Side(o.side), b.Side(Opposite(o.side)), t, Submit(b, o))
  {
    var makers, own := b.Side(Opposite(o.side)), b.Side(o.side);
    TopPlace(b, last, o, o);
    InsertKeepsOrdered(b, last, o);
    assert Insert(b, o) == BookOf(o.side, [o] + own, makers);
    t := Walk(o, own, makers, last);
    TakerOpen(o, makers, t);
    TopPlace(b, last, o, TakerAfter(o, makers, t));
  }

  /** A crossing order is better than its whole own side. */
  lemma TopPlace(b: Book, last: nat, o: OrderState, p: OrderState)
    requires Standing(b, last) && Acceptable(o) && p.side == o.side && p.price == o.price
    requires b.Side(Opposite(o.side)) != [] && Crosses(o, b.Side(Opposite(o.side))[0])
    ensures Inserted(b.Side(o.side), p) == [p] + b.Side(o.side)
  {
    assert InsertPosition(b.Side(o.side), p.side, p.price) == 0;
  }

  lemma SubmitResting(b: Book, last: nat, o: OrderState)
    requires Standing(b, last) && Acceptable(o) && o.id == last + 1
    requires b.Side(Opposite(o.side)) == [] || !Crosses(o, b.Side(Opposite(o.side))[0])
    ensures b.Balanced() && Outcome(o, b.Side(o.side), b.Side(Opposite(o.side)), 0, Submit(b, o))
  {
    var makers := b.Side(Opposite(o.side));
    InsertKeepsOrdered(b, last, o);
    NoneCross(o, makers, last);
    assert !Insert(b, o).Crossed();
    assert makers[0..] == makers && TakerAfter(o, makers, 0) == o;
  }

  /**
   * The closed form. An acceptable order arriving at a standing book trades with exactly the first t
   * opposite orders, the i-th for Fill(i) at the ask's price, and fills min(Q, crossing) in all. Every
   * other resting order is untouched, and what is left of the order rests at its place.
   */
  lemma SubmitIs(b: Book, last: nat, o: OrderState) returns (t: nat)
    requires Standing(b, last) && Acceptable(o) && o.id == last + 1
    ensures b.Balanced() && Outcome(o, b.Side(o.side), b.Side(Opposite(o.side)), t, Submit(b, o))
    ensures t <= |b.Side(Opposite(o.side))|
    ensures var crossing := OpenTotal(Crossing(o, b.Side(Opposite(o.side))));
            o.open - TakerAfter(o, b.Side(Opposite(o.side)), t).open == if o.open < crossing then o.open else crossing
  {
    var makers := b.Side(Opposite(o.side));
    if makers != [] && Crosses(o, makers[0]) {
      t := SubmitCrossing(b, last, o);
    } else {
      t := 0;
      SubmitResting(b, last, o);
    }
    FilledInAll(o, makers, last, t);
  }
}
