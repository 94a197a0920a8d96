/** The draw: who wins on which position, and what the ticket query reports about it. */
module DrawTickets {
  import opened ChainTypes

  const WIN_MULTIPLIER := 10

  /** A wallet hash, read as a big-endian number: byte order of hashes is the order of these numbers. */
  type Wallet = nat

  const JACKPOT_POOL_WALLET: Wallet := 0

  datatype Stake = Stake(wallet: Wallet, tokens: nat, value: nat)

  // ---------------------------------------------------------------------------
  // Totals
  // ---------------------------------------------------------------------------

  function Total(s: seq<Stake>): (n: nat) {
    if s == [] then 0 else s[0].tokens + Total(s[1..])
  }

  function Pool(s: seq<Stake>): (n: nat) {
    if s == [] then 0 else s[0].value + Pool(s[1..])
  }

  /** Tokens of one wallet. */
  function Own(s: seq<Stake>, w: Wallet): (n: nat) {
    if s == [] then 0 else (if s[0].wallet == w then s[0].tokens else 0) + Own(s[1..], w)
  }

  /** Tokens of all wallets before `w`. */
  function Below(s: seq<Stake>, w: Wallet): (n: nat) {
    if s == [] then 0 else (if s[0].wallet < w then s[0].tokens else 0) + Below(s[1..], w)
  }

  /** The wallet that owns position `pos` when wallets are laid out in order. */
  predicate Owns(s: seq<Stake>, w: Wallet, pos: nat) {
    Below(s, w) <= pos < Below(s, w) + Own(s, w)
  }

  lemma {:induction false} NextRange(s: seq<Stake>, w: Wallet, v: Wallet)
    requires w < v
    ensures Below(s, w) + Own(s, w) <= Below(s, v)
    ensures Below(s, v) + Own(s, v) <= Total(s)
  {
    if s != [] {
      NextRange(s[1..], w, v);
    }
  }

  /** No position has two owners, and none beyond the total has one. */
  lemma OneOwner(s: seq<Stake>, w: Wallet, v: Wallet, pos: nat)
    requires Owns(s, w, pos)
    ensures pos < Total(s) && (Owns(s, v, pos) <==> v == w)
  {
    NextRange(s, w, w + 1);
    if v < w { NextRange(s, v, w); } else if w < v { NextRange(s, w, v); }
    WithinTotal(s, w);
  }

  lemma {:induction false} WithinTotal(s: seq<Stake>, w: Wallet)
    ensures Below(s, w) + Own(s, w) <= Total(s)
  {
    if s != [] {
      WithinTotal(s[1..], w);
    }
  }

  /** The positions from `lo` on, `n` of them. */
  function Positions(lo: nat, n: nat): (r: set<nat>)
    ensures |r| == n && forall p :: p in r <==> lo <= p < lo + n
  {
    if n == 0 then {} else Positions(lo, n - 1) + {lo + n - 1}
  }

  /** Of all positions of the tape, a wallet wins on exactly as many as it has tokens. */
  lemma FairShare(s: seq<Stake>, w: Wallet)
    ensures |(set p: nat | p < WIN_MULTIPLIER * Total(s) && Owns(s, w, p))| == Own(s, w)
  {
    WithinTotal(s, w);
    assert (set p: nat | p < WIN_MULTIPLIER * Total(s) && Owns(s, w, p)) == Positions(Below(s, w), Own(s, w));
  }

  // ---------------------------------------------------------------------------
  // The draw
  // ---------------------------------------------------------------------------

  function Real(s: seq<Stake>): (r: seq<Stake>) {
    if s == [] then [] else (if s[0].wallet == JACKPOT_POOL_WALLET then [] else [s[0]]) + Real(s[1..])
  }

  predicate Sorted(s: seq<Stake>) {
    forall i, j :: 0 <= i < j < |s| ==> s[i].wallet <= s[j].wallet
  }

  function Insert(x: Stake, s: seq<Stake>): (r: seq<Stake>) {
    if s == [] || x.wallet <= s[0].wallet then [x] + s else [s[0]] + Insert(x, s[1..])
  }

  function SortByWallet(s: seq<Stake>): (r: seq<Stake>) {
    if s == [] then [] else Insert(s[0], SortByWallet(s[1..]))
  }

  lemma {:induction false} InsertFacts(x: Stake, s: seq<Stake>, w: Wallet)
    requires Sorted(s)
    ensures var r := Insert(x, s);
      && Sorted(r) && |r| == |s| + 1 && Total(r) == x.tokens + Total(s)
      && Own(r, w) == Own([x] + s, w) && Below(r, w) == Below([x] + s, w)
      && (forall y :: y in r <==> y == x || y in s)
  {
    assert ([x] + s)[1..] == s;
    if s != [] && x.wallet > s[0].wallet {
      var rest := s[1..];
      InsertFacts(x, rest, w);
      var r := Insert(x, rest);
      assert ([s[0]] + r)[1..] == r;
      assert ([x] + rest)[1..] == rest;
      forall j | 0 <= j < |r| ensures s[0].wallet <= r[j].wallet {
        assert r[j] in r;
      }
      assert s == [s[0]] + rest;
    }
  }

  lemma {:induction false} SortFacts(s: seq<Stake>, w: Wallet)
    ensures var r := SortByWallet(s); Sorted(r) && |r| == |s| && Total(r) == Total(s) && Own(r, w) == Own(s, w) && Below(r, w) == Below(s, w)
  {
    if s != [] {
      var rest := SortByWallet(s[1..]);
      SortFacts(s[1..], w);
      InsertFacts(s[0], rest, w);
      assert ([s[0]] + rest)[1..] == rest;
    }
  }

  lemma {:induction false} TotalSplit(s: seq<Stake>, t: seq<Stake>, w: Wallet)
    ensures Total(s + t) == Total(s) + Total(t) && Own(s + t, w) == Own(s, w) + Own(t, w) && Below(s + t, w) == Below(s, w) + Below(t, w)
  {
    if s == [] {
      assert s + t == t;
    } else {
      assert (s + t)[1..] == s[1..] + t;
      TotalSplit(s[1..], t, w);
    }
  }

  lemma {:induction false} AllBelow(s: seq<Stake>, w: Wallet)
    ensures (forall i :: 0 <= i < |s| ==> s[i].wallet <= w) ==> Total(s) == Below(s, w) + Own(s, w)
    ensures (forall i :: 0 <= i < |s| ==> s[i].wallet >= w) ==> Below(s, w) == 0
  {
    if s != [] {
      AllBelow(s[1..], w);
    }
  }

  /** In a sorted list, the entry whose range holds a position belongs to the wallet that owns it. */
  lemma SortedRange(s: seq<Stake>, i: nat, pos: nat)
    requires Sorted(s) && i < |s| && Total(s[..i]) <= pos < Total(s[..i]) + s[i].tokens
    ensures Owns(s, s[i].wallet, pos)
  {
    var w := s[i].wallet;
    assert s == s[..i] + s[i..] == s[..i + 1] + s[i + 1..];
    assert s[..i + 1] == s[..i] + [s[i]];
    TotalSplit(s[..i], s[i..], w);
    TotalSplit(s[..i + 1], s[i + 1..], w);
    TotalSplit(s[..i], [s[i]], w);
    AllBelow(s[i..], w);
    AllBelow(s[..i], w);
    AllBelow(s[..i + 1], w);
    assert Total([s[i]]) == s[i].tokens;
  }

  datatype Range = Range(wallet: Wallet, start: nat, end: nat)

  predicate RangesOf(s: seq<Stake>, entries: seq<Range>) {
    |entries| == |s| && forall i :: 0 <= i < |s| ==> entries[i] == Range(s[i].wallet, Total(s[..i]), Total(s[..i]) + s[i].tokens)
  }

  lemma PrefixStep(s: seq<Stake>, i: nat)
    requires i < |s|
    ensures Total(s[..i + 1]) == Total(s[..i]) + s[i].tokens
  {
    assert s[..i + 1] == s[..i] + [s[i]];
    TotalSplit(s[..i], [s[i]], 0);
    assert Total([s[i]]) == s[i].tokens;
  }

  lemma {:induction false} PrefixMonotone(s: seq<Stake>, i: nat, j: nat)
    requires i <= j <= |s|
    ensures Total(s[..i]) <= Total(s[..j])
    decreases j
  {
    if i < j {
      PrefixMonotone(s, i, j - 1);
      PrefixStep(s, j - 1);
    }
  }

  /** Sorts the stakes and lays out their ranges one after the other. */
  method BuildSortedDepositList(stakes: seq<Stake>) returns (entries: seq<Range>)
    ensures RangesOf(SortByWallet(stakes), entries)
  {
    var sorted := SortByWallet(stakes);
    entries := [];
    var cumulative := 0;
    for i := 0 to |sorted|
      invariant |entries| == i && cumulative == Total(sorted[..i])
      invariant forall j :: 0 <= j < i ==> entries[j] == Range(sorted[j].wallet, Total(sorted[..j]), Total(sorted[..j]) + sorted[j].tokens)
    {
      PrefixStep(sorted, i);
      entries := entries + [Range(sorted[i].wallet, cumulative, cumulative + sorted[i].tokens)];
      cumulative := cumulative + sorted[i].tokens;
    }
  }

  /** Binary search for the range that holds `pos`; it is there exactly when `pos` is below the total. */
  method FindWinner(ghost s: seq<Stake>, entries: seq<Range>, pos: nat) returns (found: bool, at: int)
    requires RangesOf(s, entries)
    ensures found <==> pos < Total(s)
    ensures found ==> 0 <= at < |entries| && entries[at].start <= pos < entries[at].end
  {
    hide Total;
    var lo, hi := 0, |entries| - 1;
    assert s[..|s|] == s && s[..0] == [];
    EmptyTotal();
    while lo <= hi
      invariant 0 <= lo <= hi + 1 <= |entries|
      invariant Total(s[..lo]) <= pos
      invariant hi + 1 < |entries| ==> pos < Total(s[..hi + 1])
    {
      var mid := (lo + hi) / 2;
      PrefixStep(s, mid);
      if pos < entries[mid].start {
        hi := mid - 1;
      } else if pos >= entries[mid].end {
        lo := mid + 1;
      } else {
        PrefixMonotone(s, mid + 1, |s|);
        return true, mid;
      }
    }
    return false, -1;
  }

  lemma EmptyTotal()
    ensures Total([]) == 0
  {
  }

  datatype DrawResult = DrawResult(jackpotWon: bool, winner: Wallet, prize: nat, rollover: nat, winningPos: nat, totalTokens: nat)

  const NO_DRAW := DrawResult(false, 0, 0, 0, 0, 0)

  lemma RealStep(s: seq<Stake>, i: nat)
    requires i < |s|
    ensures Real(s[..i + 1]) == Real(s[..i]) + if s[i].wallet == JACKPOT_POOL_WALLET then [] else [s[i]]
    ensures Pool(s[..i + 1]) == Pool(s[..i]) + s[i].value
  {
    RealAppend(s[..i], s[i]);
    assert s[..i + 1] == s[..i] + [s[i]];
  }

  lemma {:induction false} RealAppend(s: seq<Stake>, x: Stake)
    ensures Real(s + [x]) == Real(s) + if x.wallet == JACKPOT_POOL_WALLET then [] else [x]
    ensures Pool(s + [x]) == Pool(s) + x.value
  {
    if s == [] {
      assert s + [x] == [x];
      assert [x][1..] == [];
    } else {
      assert (s + [x])[1..] == s[1..] + [x];
      RealAppend(s[1..], x);
    }
  }

  /**
   Runs the draw for a seed. The pool goes to the wallet that owns the drawn position, or rolls
   over in full when the position is beyond the staked tokens. There is no result, but a division
   by zero, exactly when there are stakes in the pool whose owners hold no token.
   */
  method RunDraw(stakes: seq<Stake>, seed: nat) returns (result: Option<DrawResult>)
    ensures result.None? <==> Pool(stakes) > 0 && Real(stakes) != [] && Total(Real(stakes)) == 0
    ensures Pool(stakes) == 0 ==> result == Some(NO_DRAW)
    ensures result.Some? ==>
      var r := result.value;
      && r.prize + r.rollover == Pool(stakes) && (!r.jackpotWon ==> r.prize == 0 && r.winningPos == 0)
      && (Real(stakes) == [] ==> !r.jackpotWon)
      && (Pool(stakes) > 0 && Real(stakes) != [] ==>
            var pos := seed % (WIN_MULTIPLIER * Total(Real(stakes)));
            && r.totalTokens == Total(Real(stakes))
            && (r.jackpotWon <==> pos < Total(Real(stakes)))
            && (r.jackpotWon ==> r.prize == Pool(stakes) && r.winningPos == pos && Owns(Real(stakes), r.winner, pos)))
  {
    hide SortByWallet, Owns, Total, Pool, Real;
    var realStakes: seq<Stake>, totalPool, totalTokens := [], 0, 0;
    EmptyTotal();
    EmptyReal();
    if stakes == [] {
      return Some(NO_DRAW);
    }
    assert stakes[..0] == [];
    for i := 0 to |stakes|
      invariant realStakes == Real(stakes[..i]) && totalPool == Pool(stakes[..i]) && totalTokens == Total(realStakes)
    {
      RealStep(stakes, i);
      totalPool := totalPool + stakes[i].value;
      if stakes[i].wallet != JACKPOT_POOL_WALLET {
        TotalAppend(realStakes, stakes[i]);
        realStakes := realStakes + [stakes[i]];
        totalTokens := totalTokens + stakes[i].tokens;
      }
    }
    assert stakes[..|stakes|] == stakes;
    if totalPool <= 0 {
      return Some(NO_DRAW);
    }
    if realStakes == [] {
      return Some(NO_DRAW.(rollover := totalPool));
    }
    if totalTokens == 0 {
      return None;
    }
    var extendedPos := seed % (totalTokens * WIN_MULTIPLIER);
    if extendedPos >= totalTokens {
      return Some(NO_DRAW.(rollover := totalPool, totalTokens := totalTokens));
    }
    SortFacts(realStakes, 0);
    var entries := BuildSortedDepositList(realStakes);
    ghost var sorted := SortByWallet(realStakes);
    var found, at := FindWinner(sorted, entries, extendedPos);
    SortedRange(sorted, at, extendedPos);
    SortFacts(realStakes, entries[at].wallet);
    SameOwner(sorted, realStakes, entries[at].wallet, extendedPos);
    return Some(DrawResult(true, entries[at].wallet, totalPool, 0, extendedPos, totalTokens));
  }

  lemma EmptyReal()
    ensures Real([]) == [] && Pool([]) == 0
  {
  }

  lemma TotalAppend(s: seq<Stake>, x: Stake)
    ensures Total(s + [x]) == Total(s) + x.tokens
  {
    TotalSplit(s, [x], 0);
    assert Total([x]) == x.tokens;
  }

  lemma SameOwner(s: seq<Stake>, t: seq<Stake>, w: Wallet, pos: nat)
    requires Below(s, w) == Below(t, w) && Own(s, w) == Own(t, w)
    ensures Owns(s, w, pos) <==> Owns(t, w, pos)
  {
  }

  // ---------------------------------------------------------------------------
  // The ticket query
  // ---------------------------------------------------------------------------

  /** Adds a stake to the list of stakers: to its wallet's entry, or as a new last entry. */
  function AddTo(list: seq<Stake>, x: Stake): (r: seq<Stake>) {
    if list == [] then [x]
    else if list[0].wallet == x.wallet then [Stake(x.wallet, list[0].tokens + x.tokens, list[0].value + x.value)] + list[1..]
    else [list[0]] + AddTo(list[1..], x)
  }

  /** The stakers in the order in which they first appear. */
  function Stakers(s: seq<Stake>): (list: seq<Stake>) {
    if s == [] then [] else AddTo(Stakers(s[..|s| - 1]), s[|s| - 1])
  }

  predicate Distinct(list: seq<Stake>) {
    forall i, j :: 0 <= i < j < |list| ==> list[i].wallet != list[j].wallet
  }

  lemma {:induction false} AddToTotals(list: seq<Stake>, x: Stake, w: Wallet)
    ensures var r := AddTo(list, x); Total(r) == Total(list + [x]) && Own(r, w) == Own(list + [x], w) && Below(r, w) == Below(list + [x], w)
  {
    TotalSplit(list, [x], w);
    assert [x][1..] == [];
    if list != [] {
      var rest := list[1..];
      if list[0].wallet == x.wallet {
        assert AddTo(list, x)[1..] == rest;
      } else {
        AddToTotals(rest, x, w);
        TotalSplit(rest, [x], w);
        assert AddTo(list, x)[1..] == AddTo(rest, x);
      }
    }
  }

  /** Where the wallet's entry is, or where it goes. */
  function At(list: seq<Stake>, w: Wallet): (i: nat)
    ensures i <= |list| && (i < |list| ==> list[i].wallet == w) && forall j :: 0 <= j < i ==> list[j].wallet != w
  {
    if list == [] || list[0].wallet == w then 0 else 1 + At(list[1..], w)
  }

  lemma {:induction false} AddToEntry(list: seq<Stake>, x: Stake)
    ensures var i, r := At(list, x.wallet), AddTo(list, x);
      r == if i < |list| then list[i := Stake(x.wallet, list[i].tokens + x.tokens, list[i].value + x.value)] else list + [x]
  {
    if list != [] && list[0].wallet != x.wallet {
      AddToEntry(list[1..], x);
    }
  }

  /** Merging entries by wallet names no wallet twice and keeps every total. */
  lemma StakersFacts(s: seq<Stake>, w: Wallet)
    ensures var list := Stakers(s);
      Distinct(list) && Total(list) == Total(s) && Own(list, w) == Own(s, w) && Below(list, w) == Below(s, w)
  {
    hide Distinct;
    StakersDistinct(s);
    StakersTotals(s, w);
  }

  lemma {:induction false} StakersTotals(s: seq<Stake>, w: Wallet)
    ensures var list := Stakers(s); Total(list) == Total(s) && Own(list, w) == Own(s, w) && Below(list, w) == Below(s, w)
  {
    if s != [] {
      hide Total, Own, Below, AddTo;
      var front, x := s[..|s| - 1], s[|s| - 1];
      StakersTotals(front, w);
      AddToTotals(Stakers(front), x, w);
      TotalSplit(Stakers(front), [x], w);
      TotalSplit(front, [x], w);
      assert s == front + [x];
    }
  }

  lemma {:induction false} StakersDistinct(s: seq<Stake>)
    ensures Distinct(Stakers(s))
  {
    if s != [] {
      hide AddTo, Distinct, At;
      var front, x := s[..|s| - 1], s[|s| - 1];
      StakersDistinct(front);
      AddToEntry(Stakers(front), x);
      DistinctAfter(Stakers(front), x);
    }
  }

  lemma DistinctAfter(list: seq<Stake>, x: Stake)
    requires Distinct(list)
    ensures var i := At(list, x.wallet);
      if i < |list| then forall y: Stake :: y.wallet == x.wallet ==> Distinct(list[i := y]) else Distinct(list + [x])
  {
  }

  method FetchDrawAllStakers(entries: seq<Stake>) returns (list: seq<Stake>)
    ensures list == Stakers(Real(entries))
  {
    hide Real, Stakers, Tracks, AddTo;
    var agg: map<Wallet, Stake>, order: seq<Wallet> := map[], [];
    assert entries[..0] == [];
    TracksNone();
    for i := 0 to |entries|
      invariant Tracks(Stakers(Real(entries[..i])), agg, order)
    {
      var e := entries[i];
      TracksEntry(entries, i, agg, order);
      if e.wallet == JACKPOT_POOL_WALLET {
        continue;
      }
      if e.wallet in agg {
        var d := agg[e.wallet];
        agg := agg[e.wallet := Stake(e.wallet, d.tokens + e.tokens, d.value + e.value)];
      } else {
        agg := agg[e.wallet := e];
        order := order + [e.wallet];
      }
    }
    assert entries[..|entries|] == entries;
    ghost var all := Stakers(Real(entries));
    TracksAll(all, agg, order);
    list := [];
    for i := 0 to |order|
      invariant list == all[..i]
    {
      list := list + [agg[order[i]]];
    }
  }

  lemma TracksNone()
    ensures Tracks(Stakers(Real([])), map[], [])
  {
  }

  lemma TracksAll(list: seq<Stake>, agg: map<Wallet, Stake>, order: seq<Wallet>)
    requires Tracks(list, agg, order)
    ensures |order| == |list| && forall i :: 0 <= i < |list| ==> order[i] in agg && agg[order[i]] == list[i]
  {
  }

  /** One more entry: the jackpot's own are passed over, the others are added up. */
  lemma TracksEntry(entries: seq<Stake>, i: nat, agg: map<Wallet, Stake>, order: seq<Wallet>)
    requires i < |entries| && Tracks(Stakers(Real(entries[..i])), agg, order)
    ensures var e, list := entries[i], Stakers(Real(entries[..i + 1]));
      if e.wallet == JACKPOT_POOL_WALLET then Tracks(list, agg, order)
      else if e.wallet in agg
      then Tracks(list, agg[e.wallet := Stake(e.wallet, agg[e.wallet].tokens + e.tokens, agg[e.wallet].value + e.value)], order)
      else Tracks(list, agg[e.wallet := e], order + [e.wallet])
  {
    hide Tracks, Real, AddTo;
    var before, e := Real(entries[..i]), entries[i];
    StakersFacts(before, 0);
    RealStep(entries, i);
    if e.wallet == JACKPOT_POOL_WALLET {
      assert before + [] == before;
    } else {
      assert (before + [e])[..|before|] == before;
      TracksStep(Stakers(before), agg, order, e);
    }
  }

  /** The map and the order in which its keys were added describe the list. */
  ghost predicate Tracks(list: seq<Stake>, agg: map<Wallet, Stake>, order: seq<Wallet>) {
    && |order| == |list| && (forall w :: w in agg <==> w in order)
    && forall i :: 0 <= i < |list| ==> order[i] == list[i].wallet && order[i] in agg && agg[order[i]] == list[i]
  }

  lemma TracksStep(list: seq<Stake>, agg: map<Wallet, Stake>, order: seq<Wallet>, e: Stake)
    requires Tracks(list, agg, order) && Distinct(list)
    ensures if e.wallet in agg
      then Tracks(AddTo(list, e), agg[e.wallet := Stake(e.wallet, agg[e.wallet].tokens + e.tokens, agg[e.wallet].value + e.value)], order)
      else Tracks(AddTo(list, e), agg[e.wallet := e], order + [e.wallet])
  {
    hide Tracks, AddTo, Distinct, At;
    AddToEntry(list, e);
    TracksAt(list, agg, order, e.wallet);
    if e.wallet in agg {
      TracksMerge(list, agg, order, At(list, e.wallet), Stake(e.wallet, agg[e.wallet].tokens + e.tokens, agg[e.wallet].value + e.value));
    } else {
      TracksAppend(list, agg, order, e);
    }
  }

  lemma TracksAt(list: seq<Stake>, agg: map<Wallet, Stake>, order: seq<Wallet>, w: Wallet)
    requires Tracks(list, agg, order)
    ensures w in agg <==> At(list, w) < |list|
    ensures At(list, w) < |list| ==> list[At(list, w)] == agg[w]
  {
    if w in agg {
      var i :| 0 <= i < |order| && order[i] == w;
      assert list[i].wallet == w;
    }
  }

  lemma TracksMerge(list: seq<Stake>, agg: map<Wallet, Stake>, order: seq<Wallet>, i: nat, x: Stake)
    requires Tracks(list, agg, order) && Distinct(list) && i < |list| && list[i].wallet == x.wallet
    ensures Tracks(list[i := x], agg[x.wallet := x], order)
  {
    assert order[i] == x.wallet;
    forall j | 0 <= j < |list| && j != i ensures list[j].wallet != x.wallet {
    }
  }

  lemma TracksAppend(list: seq<Stake>, agg: map<Wallet, Stake>, order: seq<Wallet>, x: Stake)
    requires Tracks(list, agg, order) && x.wallet !in agg
    ensures Tracks(list + [x], agg[x.wallet := x], order + [x.wallet])
  {
  }

  method FetchWalletTokens(entries: seq<Stake>, w: Wallet) returns (tokens: nat)
    ensures tokens == Own(entries, w)
  {
    tokens := 0;
    for i := 0 to |entries|
      invariant tokens == Own(entries[..i], w)
    {
      assert entries[..i + 1] == entries[..i] + [entries[i]];
      TotalSplit(entries[..i], [entries[i]], w);
      assert [entries[i]][1..] == [];
      if entries[i].wallet == w {
        tokens := tokens + entries[i].tokens;
      }
    }
    assert entries[..|entries|] == entries;
  }

  datatype Tickets = Tickets(totalTokens: nat, rangeStart: nat, rangeEnd: nat, winningPos: nat, won: bool)

  /** Where the query lets the range of a wallet start; zero for a wallet that is not in the list. */
  function RangeStart(list: seq<Stake>, w: Wallet): (start: nat) {
    if At(list, w) < |list| then Total(list[..At(list, w)]) else 0
  }

  /** What the query reports for a position. */
  predicate ReportsWin(list: seq<Stake>, w: Wallet, tokens: nat, pos: nat) {
    pos < Total(list) && RangeStart(list, w) <= pos < RangeStart(list, w) + tokens
  }

  /** The ticket query of a wallet for a draw with the given stakes and seed; none without tokens. */
  method GetDrawTickets(entries: seq<Stake>, w: Wallet, seed: nat) returns (r: Option<Tickets>)
    ensures r.None? <==> Own(entries, w) == 0
    ensures r.Some? ==>
      var list := Stakers(Real(entries));
      var t := r.value;
      && t.totalTokens == Total(list)
      && t.winningPos == (if Total(list) > 0 then seed % (Total(list) * WIN_MULTIPLIER) else 0)
      && t.rangeStart == RangeStart(list, w) && t.rangeEnd == t.rangeStart + Own(entries, w)
      && t.won == ReportsWin(list, w, Own(entries, w), t.winningPos)
  {
    hide Stakers, Real, Own, Total, At;
    var tokenCount := FetchWalletTokens(entries, w);
    if tokenCount == 0 {
      return None;
    }
    var list := FetchDrawAllStakers(entries);
    StakersFacts(Real(entries), w);
    var rangeStart, totalTokens := 0, 0;
    assert list[..0] == [];
    EmptyTotal();
    AtFacts(list, w);
    for i := 0 to |list|
      invariant totalTokens == Total(list[..i])
      invariant rangeStart == if At(list, w) < i then Total(list[..At(list, w)]) else 0
    {
      if list[i].wallet == w {
        rangeStart := totalTokens;
      }
      PrefixStep(list, i);
      totalTokens := totalTokens + list[i].tokens;
    }
    assert list[..|list|] == list;
    var extendedPos := 0;
    if totalTokens > 0 {
      extendedPos := seed % (totalTokens * WIN_MULTIPLIER);
    }
    return Some(Tickets(totalTokens, rangeStart, rangeStart + tokenCount, extendedPos,
                        extendedPos < totalTokens && rangeStart <= extendedPos < rangeStart + tokenCount));
  }

  lemma AtFacts(list: seq<Stake>, w: Wallet)
    requires Distinct(list)
    ensures forall i :: 0 <= i < |list| ==> (list[i].wallet == w <==> i == At(list, w))
  {
  }

  /** The ranges of a list without repeated wallets lie one after the other and have the size of the stake. */
  lemma RangesTile(list: seq<Stake>, i: nat)
    requires Distinct(list) && i < |list|
    ensures RangeStart(list, list[i].wallet) == Total(list[..i]) && Own(list, list[i].wallet) == list[i].tokens
    ensures RangeStart(list, list[i].wallet) + list[i].tokens == Total(list[..i + 1]) <= Total(list)
  {
    AtFacts(list, list[i].wallet);
    PrefixStep(list, i);
    PrefixMonotone(list, i + 1, |list|);
    assert list[..|list|] == list;
    OwnAt(list, i);
  }

  lemma {:induction false} OwnAt(list: seq<Stake>, i: nat)
    requires Distinct(list) && i < |list|
    ensures Own(list, list[i].wallet) == list[i].tokens
  {
    var w := list[i].wallet;
    assert list == list[..i] + ([list[i]] + list[i + 1..]);
    TotalSplit(list[..i], [list[i]] + list[i + 1..], w);
    TotalSplit([list[i]], list[i + 1..], w);
    assert [list[i]][1..] == [];
    OwnNone(list[..i], w);
    OwnNone(list[i + 1..], w);
  }

  lemma {:induction false} OwnNone(s: seq<Stake>, w: Wallet)
    requires forall i :: 0 <= i < |s| ==> s[i].wallet != w
    ensures Own(s, w) == 0
  {
    if s != [] {
      OwnNone(s[1..], w);
    }
  }

  predicate Wins(list: seq<Stake>, i: nat, pos: nat)
    requires i < |list|
  {
    ReportsWin(list, list[i].wallet, list[i].tokens, pos)
  }

  /** Whatever the order of the list, some entry wins exactly on the positions below the total, and only one. */
  lemma ExactlyOneReported(list: seq<Stake>, pos: nat)
    requires Distinct(list)
    ensures pos < Total(list) <==> exists i :: 0 <= i < |list| && Wins(list, i, pos)
    ensures forall i, j :: 0 <= i < j < |list| && Wins(list, i, pos) ==> !Wins(list, j, pos)
  {
    if pos < Total(list) {
      assert list[..|list|] == list;
      var i := RangeWith(list, |list|, pos);
      RangesTile(list, i);
      assert Wins(list, i, pos);
    }
    forall i, j | 0 <= i < j < |list| && Wins(list, i, pos) ensures !Wins(list, j, pos) {
      RangesTile(list, i);
      RangesTile(list, j);
      PrefixMonotone(list, i + 1, j);
    }
  }

  lemma {:induction false} RangeWith(list: seq<Stake>, n: nat, pos: nat) returns (i: nat)
    requires n <= |list| && pos < Total(list[..n])
    ensures i < n && Total(list[..i]) <= pos < Total(list[..i]) + list[i].tokens
  {
    assert list[..0] == [] && n > 0;
    PrefixStep(list, n - 1);
    if pos < Total(list[..n - 1]) {
      i := RangeWith(list, n - 1, pos);
    } else {
      i := n - 1;
    }
  }

  /** Each wallet is reported as the winner on exactly its tokens of the positions of the tape. */
  lemma ReportedShare(list: seq<Stake>, i: nat)
    requires Distinct(list) && i < |list|
    ensures |(set p: nat | p < WIN_MULTIPLIER * Total(list) && Wins(list, i, p))| == list[i].tokens
  {
    RangesTile(list, i);
    assert (set p: nat | p < WIN_MULTIPLIER * Total(list) && Wins(list, i, p)) == Positions(Total(list[..i]), list[i].tokens);
  }

  /** In a sorted list the query's ranges are those of the draw. */
  lemma SortedAgrees(list: seq<Stake>, i: nat)
    requires Distinct(list) && Sorted(list) && i < |list|
    ensures Below(list, list[i].wallet) == Total(list[..i])
  {
    var w := list[i].wallet;
    assert list == list[..i] + list[i..];
    TotalSplit(list[..i], list[i..], w);
    AllBelow(list[i..], w);
    AllBelow(list[..i], w);
    OwnNone(list[..i], w);
  }

  /** The ticket query and the draw name the same winner on every position. */
  ghost predicate Agree(list: seq<Stake>) {
    forall i, pos :: 0 <= i < |list| ==> (Wins(list, i, pos) <==> Owns(list, list[i].wallet, pos))
  }

  /**
   They do so exactly when wallets first appear in the order of their hashes.  Every stake in the
   index is of one token at least.
   */
  lemma AgreeIffSorted(entries: seq<Stake>)
    requires forall e :: e in Stakers(Real(entries)) ==> e.tokens > 0
    ensures Agree(Stakers(Real(entries))) <==> Sorted(Stakers(Real(entries)))
    ensures forall w, pos :: Owns(Stakers(Real(entries)), w, pos) <==> Owns(Real(entries), w, pos)
  {
    hide Owns, Wins, Stakers, Real;
    var list := Stakers(Real(entries));
    StakersFacts(Real(entries), 0);
    if Sorted(list) {
      forall i, pos | 0 <= i < |list| ensures Wins(list, i, pos) <==> Owns(list, list[i].wallet, pos) {
        SortedWins(list, i, pos);
      }
    }
    if Agree(list) {
      forall i, j | 0 <= i < j < |list| ensures list[i].wallet <= list[j].wallet {
        assert list[i] in list && list[j] in list;
        AgreeOrders(list, i, j);
      }
    }
    forall w, pos ensures Owns(list, w, pos) <==> Owns(Real(entries), w, pos) {
      StakersFacts(Real(entries), w);
      SameOwner(list, Real(entries), w, pos);
    }
  }

  lemma SortedWins(list: seq<Stake>, i: nat, pos: nat)
    requires Distinct(list) && Sorted(list) && i < |list|
    ensures Wins(list, i, pos) <==> Owns(list, list[i].wallet, pos)
  {
    SortedAgrees(list, i);
    RangesTile(list, i);
  }

  lemma AgreeOrders(list: seq<Stake>, i: nat, j: nat)
    requires Distinct(list) && Agree(list) && i < j < |list| && list[i].tokens > 0 && list[j].tokens > 0
    ensures list[i].wallet < list[j].wallet
  {
    SameStart(list, i);
    SameStart(list, j);
    PrefixMonotone(list, i + 1, j);
    PrefixStep(list, i);
    if list[j].wallet < list[i].wallet {
      NextRange(list, list[j].wallet, list[i].wallet);
    }
  }

  lemma SameStart(list: seq<Stake>, i: nat)
    requires Distinct(list) && Agree(list) && i < |list| && list[i].tokens > 0
    ensures Below(list, list[i].wallet) == Total(list[..i])
  {
    RangesTile(list, i);
    var w := list[i].wallet;
    WithinTotal(list, w);
    assert Wins(list, i, Total(list[..i]));
    assert Owns(list, w, Total(list[..i]));
    assert Owns(list, w, Below(list, w));
    assert Wins(list, i, Below(list, w));
  }

  /** Two wallets that staked against hash order: on position zero the query names one and the draw the other. */
  lemma UnsortedDisagrees(a: Wallet, b: Wallet)
    requires 0 < b < a
    ensures var entries := [Stake(a, 1, 1), Stake(b, 1, 1)];
      Stakers(Real(entries)) == entries && Wins(entries, 0, 0) && Owns(Real(entries), b, 0)
  {
    var x, y := Stake(a, 1, 1), Stake(b, 1, 1);
    var entries := [x, y];
    assert entries[1..] == [y] && [y][1..] == [] && entries[..1] == [x] && [x][..0] == [] && [x][1..] == [];
    assert Real([]) == [];
    assert Real([y]) == [y] + Real([]);
    assert Real(entries) == [x] + Real([y]);
    assert Real(entries) == entries;
    assert Stakers([x]) == AddTo(Stakers([]), x) == [x];
    assert AddTo([x], y) == [x] + AddTo([], y);
    assert Stakers(entries) == AddTo([x], y) == entries;
    assert Below(entries, b) == Below([y], b) == Below([], b);
    assert Own(entries, b) == Own([y], b) == 1 + Own([], b);
    assert At(entries, a) == 0 && entries[..0] == [];
    assert Total(entries) == 1 + Total([y]) == 2 + Total([]);
  }
}
