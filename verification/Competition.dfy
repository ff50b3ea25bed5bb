/**
 * Choosing the winner and the reference score: `single_run` and `competition` of crates/autopilot/src/run_loop.rs
 * and the shadow loop of crates/autopilot/src/shadow.rs.
 */
module Competition {
  import opened Prelude
  import opened Sorting

  type Uid = nat
  type Token = nat
  type Calldata = seq<nat>

  datatype AuctionOrder = AuctionOrder(uid: Uid, sellToken: Token, buyToken: Token, protocolFees: seq<nat>)
  datatype Auction = Auction(orders: seq<AuctionOrder>, prices: map<Token, nat>)

  /** A driver's solution; `orders` are its order ids in the hash map's iteration order. */
  datatype Participant = Participant(driver: nat, solver: nat, score: nat, orders: seq<Uid>)

  datatype Ranked = Ranked(solver: nat, score: nat, ranking: nat, callData: Option<Calldata>)

  datatype CompetitionRecord = CompetitionRecord(
    winner: nat, winningScore: nat, referenceScore: nat,
    prices: map<Token, nat>, feePolicies: seq<(Uid, seq<nat>)>, table: seq<Ranked>)

  // ---- What the two scores mean --------------------------------------------------------------

  /** The largest element, or zero if there is none. */
  ghost predicate IsMaxOrZero(x: int, s: multiset<int>) {
    if s == multiset{} then x == 0 else x in s && forall y :: y in s ==> y <= x
  }

  ghost predicate IsTopTwo(scores: multiset<int>, best: int, reference: int) {
    best in scores && (forall y :: y in scores ==> y <= best) && IsMaxOrZero(reference, scores - multiset{best})
  }

  /** Ties may be split either way, but the two scores are determined by the submitted scores. */
  lemma TopTwoUnique(scores: multiset<int>, b1: int, r1: int, b2: int, r2: int)
    requires IsTopTwo(scores, b1, r1) && IsTopTwo(scores, b2, r2)
    ensures b1 == b2 && r1 == r2
  {
    assert b1 == b2;
    var rest := scores - multiset{b1};
    if rest != multiset{} { assert r1 in rest && r2 in rest; }
  }

  /** Participants that failed and count as zero change neither the best nor the reference score. */
  lemma FailuresDoNotMatter(scores: multiset<int>, failures: nat, best: int, reference: int)
    requires (forall y :: y in scores ==> y > 0) && IsTopTwo(scores, best, reference)
    ensures IsTopTwo(scores[0 := failures], best, reference)
  {
    var all := scores[0 := failures];
    var rest, restAll := scores - multiset{best}, all - multiset{best};
    assert forall y :: y in restAll <==> y in rest || (y == 0 && failures > 0);
    if rest == multiset{} {
      assert forall y :: y in restAll ==> y == 0;
      if restAll != multiset{} { var y :| y in restAll; }
    } else {
      assert reference in rest && reference in restAll;
    }
  }

  function ScoreOf(p: Participant): int {
    p.score
  }

  function ScoresOf(s: seq<Participant>): seq<int> {
    Keys(s, ScoreOf)
  }

  lemma TopTwoFrom(s: seq<int>, k: nat, reference: int)
    requires k < |s| && forall y :: y in s ==> y <= s[k]
    requires if |s| == 1 then reference == 0
             else reference in WithoutAt(s, k) && forall y :: y in WithoutAt(s, k) ==> y <= reference
    ensures IsTopTwo(multiset(s), s[k], reference)
  {
    RemoveAt(s, k);
    var rest := WithoutAt(s, k);
    forall y | y in multiset(s) ensures y <= s[k] { assert y in s; }
    if |s| == 1 {
      assert rest == [];
    } else {
      assert multiset(s) - multiset{s[k]} == multiset(rest) && reference in multiset(rest);
      forall y | y in multiset(rest) ensures y <= reference { assert y in rest; }
    }
  }

  /** Last and next-to-last of an ascending list are its top two. */
  lemma LastTwoAreTopTwo(s: seq<int>)
    requires s != [] && forall i, j :: 0 <= i < j < |s| ==> s[i] <= s[j]
    ensures IsTopTwo(multiset(s), s[|s| - 1], if |s| >= 2 then s[|s| - 2] else 0)
  {
    var n := |s|;
    assert WithoutAt(s, n - 1) == s[..n - 1];
    TopTwoFrom(s, n - 1, if n >= 2 then s[n - 2] else 0);
  }

  /** An ascending arrangement of the participants. */
  ghost predicate IsSorted(sorted: seq<Participant>, shuffled: seq<Participant>) {
    && multiset(sorted) == multiset(shuffled) && |sorted| == |shuffled|
    && (forall i, j :: 0 <= i < j < |sorted| ==> sorted[i].score <= sorted[j].score)
    && multiset(ScoresOf(sorted)) == multiset(ScoresOf(shuffled))
  }

  method SortByScore(shuffled: seq<Participant>) returns (sorted: seq<Participant>)
    ensures IsSorted(sorted, shuffled)
  {
    sorted := SortByKey(shuffled, ScoreOf);
    SortSpec(shuffled, ScoreOf);
    KeysPermuted(sorted, shuffled, ScoreOf);
    forall i, j | 0 <= i < j < |sorted| ensures sorted[i].score <= sorted[j].score {
      assert ScoreOf(sorted[i]) <= ScoreOf(sorted[j]);
    }
  }

  // ---- Collecting solutions ------------------------------------------------------------------

  /** One proposed solution; `allowed` is the answer of the on-chain allow list. */
  datatype Proposed = Proposed(solver: nat, score: nat, orders: seq<Uid>, allowed: bool)

  /** Valid solutions of one driver; a timeout, an error or an empty response contributes nothing. */
  function Solutions(driver: nat, response: Option<seq<Proposed>>): (r: seq<Participant>)
    ensures forall p :: p in r <==> Offers(driver, response, p)
    decreases if response.Some? then |response.value| else 0
  {
    match response
    case None => []
    case Some(proposed) =>
      if proposed == [] then []
      else
        var q := proposed[0];
        assert proposed == [q] + proposed[1..];
        var rest := Solutions(driver, Some(proposed[1..]));
        if q.score == 0 || !q.allowed then rest else [Participant(driver, q.solver, q.score, q.orders)] + rest
  }

  /** The driver proposed this solution, its score is positive, and its solver is on the allow list. */
  predicate Offers(driver: nat, response: Option<seq<Proposed>>, p: Participant) {
    p.driver == driver && p.score > 0 && response.Some? && Proposed(p.solver, p.score, p.orders, true) in response.value
  }

  function Competition(responses: seq<Option<seq<Proposed>>>, from: nat): seq<Participant> {
    if responses == [] then [] else Solutions(from, responses[0]) + Competition(responses[1..], from + 1)
  }

  /** The driver at the participant's position offers it. */
  predicate IsValidProposal(responses: seq<Option<seq<Proposed>>>, p: Participant) {
    p.driver < |responses| && Offers(p.driver, responses[p.driver], p)
  }

  lemma {:induction false} CompetitionOffers(responses: seq<Option<seq<Proposed>>>, from: nat, p: Participant)
    ensures p in Competition(responses, from) <==>
              from <= p.driver < from + |responses| && Offers(p.driver, responses[p.driver - from], p)
  {
    if responses == [] {
    } else {
      CompetitionOffers(responses[1..], from + 1, p);
      assert p in Competition(responses, from) <==> p in Solutions(from, responses[0]) || p in Competition(responses[1..], from + 1);
    }
  }

  // ---- How often a proposal takes part ---------------------------------------------------------

  /** A place in a driver's response. */
  datatype Slot = Slot(driver: nat, index: nat)

  /** The proposal there scores and its solver is allowed. */
  predicate IsValidSlot(responses: seq<Option<seq<Proposed>>>, x: Slot) {
    && x.driver < |responses| && responses[x.driver].Some? && x.index < |responses[x.driver].value|
    && responses[x.driver].value[x.index].score > 0 && responses[x.driver].value[x.index].allowed
  }

  function EntrantAt(responses: seq<Option<seq<Proposed>>>, x: Slot): Participant
    requires IsValidSlot(responses, x)
  {
    var q := responses[x.driver].value[x.index];
    Participant(x.driver, q.solver, q.score, q.orders)
  }

  /** The proposal behind a participant. */
  function ProposalOf(p: Participant): Proposed {
    Proposed(p.solver, p.score, p.orders, true)
  }

  lemma {:induction false} SolutionsCount(driver: nat, response: Option<seq<Proposed>>, p: Participant)
    ensures multiset(Solutions(driver, response))[p] ==
              if p.driver == driver && p.score > 0 && response.Some? then multiset(response.value)[ProposalOf(p)] else 0
    decreases if response.Some? then |response.value| else 0
  {
    if response == None || response.value == [] {
    } else {
      var proposed := response.value;
      SolutionsCount(driver, Some(proposed[1..]), p);
      assert proposed == [proposed[0]] + proposed[1..];
    }
  }

  lemma CountConcat(a: seq<Participant>, b: seq<Participant>, p: Participant)
    ensures multiset(a + b)[p] == multiset(a)[p] + multiset(b)[p]
  {
  }

  /** How often the driver at the participant's position proposed it. */
  function Proposals(responses: seq<Option<seq<Proposed>>>, from: nat, p: Participant): nat {
    if from <= p.driver < from + |responses| && p.score > 0 && responses[p.driver - from].Some?
    then multiset(responses[p.driver - from].value)[ProposalOf(p)] else 0
  }

  lemma ProposalsSplit(responses: seq<Option<seq<Proposed>>>, from: nat, p: Participant)
    requires responses != []
    ensures Proposals(responses, from, p) == multiset(Solutions(from, responses[0]))[p] + Proposals(responses[1..], from + 1, p)
  {
    SolutionsCount(from, responses[0], p);
  }

  lemma {:induction false} CompetitionCount(responses: seq<Option<seq<Proposed>>>, from: nat, p: Participant)
    ensures multiset(Competition(responses, from))[p] == Proposals(responses, from, p)
  {
    if responses == [] {
    } else {
      CompetitionCount(responses[1..], from + 1, p);
      ProposalsSplit(responses, from, p);
      CountConcat(Solutions(from, responses[0]), Competition(responses[1..], from + 1), p);
    }
  }

  lemma SlotCounts<T>(s: seq<T>, i: nat)
    requires i < |s|
    ensures multiset(s)[s[i]] > 0
  {
    assert s[i] in s;
  }

  lemma {:induction false} SecondPlace<T(!new)>(s: seq<T>, i: nat) returns (j: nat)
    requires i < |s| && multiset(s)[s[i]] > 1
    ensures j < |s| && j != i && s[j] == s[i]
  {
    RemoveAt(s, i);
    var rest := WithoutAt(s, i);
    assert s[i] in multiset(rest);
    var k :| 0 <= k < |rest| && rest[k] == s[i];
    j := if k < i then k else k + 1;
  }

  lemma TwoPlacesCount<T(!new)>(s: seq<T>, i: nat, j: nat)
    requires i < |s| && j < |s| && i != j && s[i] == s[j]
    ensures multiset(s)[s[i]] > 1
  {
    RemoveAt(s, i);
    assert WithoutAt(s, i)[if j < i then j else j - 1] == s[i];
    assert s[i] in WithoutAt(s, i);
  }

  /** A participant takes part exactly as often as its driver proposed it. */
  lemma TakesPart(responses: seq<Option<seq<Proposed>>>, shuffled: seq<Participant>, p: Participant)
    requires multiset(shuffled) == multiset(Competition(responses, 0))
    ensures multiset(shuffled)[p] == Proposals(responses, 0, p)
  {
    CompetitionCount(responses, 0, p);
  }

  /** What the solutions other than one occurrence of w are: the entrants at the other valid slots. */
  lemma OthersAreOtherSlots(responses: seq<Option<seq<Proposed>>>, shuffled: seq<Participant>, x: Slot, p: Participant)
    requires multiset(shuffled) == multiset(Competition(responses, 0)) && IsValidSlot(responses, x)
    ensures p in multiset(shuffled) - multiset{EntrantAt(responses, x)} <==>
              exists y :: y != x && IsValidSlot(responses, y) && EntrantAt(responses, y) == p
  {
    var w := EntrantAt(responses, x);
    TakesPart(responses, shuffled, p);
    if y :| y != x && IsValidSlot(responses, y) && EntrantAt(responses, y) == p {
      SlotCounts(responses[y.driver].value, y.index);
      if p == w { TwoPlacesCount(responses[x.driver].value, x.index, y.index); }
    } else if p in multiset(shuffled) - multiset{w} {
      OtherSlot(responses, shuffled, x, p);
    }
  }

  lemma OtherSlot(responses: seq<Option<seq<Proposed>>>, shuffled: seq<Participant>, x: Slot, p: Participant)
    requires multiset(shuffled) == multiset(Competition(responses, 0)) && IsValidSlot(responses, x)
    requires p in multiset(shuffled) - multiset{EntrantAt(responses, x)}
    ensures exists y :: y != x && IsValidSlot(responses, y) && EntrantAt(responses, y) == p
  {
    TakesPart(responses, shuffled, p);
    var proposed := responses[p.driver].value;
    var i: nat;
    if p == EntrantAt(responses, x) {
      assert ProposalOf(p) == proposed[x.index];
      i := SecondPlace(proposed, x.index);
    } else {
      assert ProposalOf(p) in proposed;
      i :| 0 <= i < |proposed| && proposed[i] == ProposalOf(p);
    }
    var y := Slot(p.driver, i);
    assert y != x && IsValidSlot(responses, y) && EntrantAt(responses, y) == p;
  }

  /** Whatever arrangement of the competition's solutions: it holds exactly the valid proposals of all drivers. */
  lemma ShuffledOffers(responses: seq<Option<seq<Proposed>>>, shuffled: seq<Participant>)
    requires multiset(shuffled) == multiset(Competition(responses, 0))
    ensures forall p :: p in shuffled <==> IsValidProposal(responses, p)
  {
    forall p ensures p in shuffled <==> IsValidProposal(responses, p) {
      CompetitionOffers(responses, 0, p);
      assert p in shuffled <==> p in multiset(shuffled);
      assert p in Competition(responses, 0) <==> p in multiset(Competition(responses, 0));
    }
  }

  // ---- The run -------------------------------------------------------------------------------

  function FindOrder(orders: seq<AuctionOrder>, uid: Uid): (r: Option<AuctionOrder>)
    ensures r.Some? <==> exists o :: o in orders && o.uid == uid
    ensures r.Some? ==> r.value in orders && r.value.uid == uid
  {
    if orders == [] then None else if orders[0].uid == uid then Some(orders[0]) else FindOrder(orders[1..], uid)
  }

  function FeePolicies(auction: Auction, uids: seq<Uid>): seq<(Uid, seq<nat>)> {
    if uids == [] then []
    else
      FeePolicies(auction, uids[..|uids| - 1]) +
      match FindOrder(auction.orders, uids[|uids| - 1])
      case None => []
      case Some(o) => [(o.uid, o.protocolFees)]
  }

  /** The auction has an order with this uid. */
  ghost predicate IsKnown(auction: Auction, uid: Uid) {
    exists o :: o in auction.orders && o.uid == uid
  }

  ghost predicate IsPolicy(auction: Auction, policy: (Uid, seq<nat>)) {
    exists o :: o in auction.orders && policy == (o.uid, o.protocolFees)
  }

  /** For each of the uids the auction knows, in their order, the fees of an order with this uid. */
  ghost predicate AreFeePolicies(auction: Auction, uids: seq<Uid>, policies: seq<(Uid, seq<nat>)>) {
    && (forall i :: 0 <= i < |policies| ==> IsPolicy(auction, policies[i]))
    && PolicyUids(policies) == KnownUids(auction, uids)
  }

  function PolicyUids(policies: seq<(Uid, seq<nat>)>): seq<Uid> {
    seq(|policies|, i requires 0 <= i < |policies| => policies[i].0)
  }

  ghost function KnownUids(auction: Auction, uids: seq<Uid>): seq<Uid> {
    if uids == [] then []
    else KnownUids(auction, uids[..|uids| - 1]) + (if IsKnown(auction, uids[|uids| - 1]) then [uids[|uids| - 1]] else [])
  }

  lemma PoliciesOneMore(auction: Auction, uids: seq<Uid>, policies: seq<(Uid, seq<nat>)>, uid: Uid, more: seq<(Uid, seq<nat>)>)
    requires AreFeePolicies(auction, uids, policies)
    requires more == match FindOrder(auction.orders, uid) case None => [] case Some(o) => [(o.uid, o.protocolFees)]
    ensures AreFeePolicies(auction, uids + [uid], policies + more)
  {
    var o := FindOrder(auction.orders, uid);
    assert (uids + [uid])[..|uids|] == uids && (o.Some? <==> IsKnown(auction, uid));
    if o.Some? {
      assert PolicyUids(policies + more) == PolicyUids(policies) + [uid];
    } else {
      assert policies + more == policies && KnownUids(auction, uids) + [] == KnownUids(auction, uids);
    }
    forall i | 0 <= i < |policies + more| ensures IsPolicy(auction, (policies + more)[i]) {
      if i < |policies| {
        assert (policies + more)[i] == policies[i];
      } else {
        assert o.value in auction.orders && (policies + more)[i] == (o.value.uid, o.value.protocolFees);
      }
    }
  }

  lemma {:induction false} FeePoliciesAre(auction: Auction, uids: seq<Uid>)
    ensures AreFeePolicies(auction, uids, FeePolicies(auction, uids))
  {
    if uids == [] {
    } else {
      var n := |uids| - 1;
      var more := match FindOrder(auction.orders, uids[n]) case None => [] case Some(o) => [(o.uid, o.protocolFees)];
      FeePoliciesAre(auction, uids[..n]);
      PoliciesOneMore(auction, uids[..n], FeePolicies(auction, uids[..n]), uids[n], more);
      FrontAndLast(uids);
    }
  }

  /** Token t is traded by one of the orders and has an auction price. */
  ghost predicate PricedByOrders(auction: Auction, uids: seq<Uid>, t: Token) {
    t in auction.prices && exists uid :: uid in uids && TradesToken(auction, uid, t)
  }

  ghost predicate TradesToken(auction: Auction, uid: Uid, t: Token) {
    var o := FindOrder(auction.orders, uid);
    o.Some? && (o.value.sellToken == t || o.value.buyToken == t)
  }

  /** Solver and score of each participant. */
  function Entries(s: seq<Participant>): seq<(nat, nat)> {
    seq(|s|, i requires 0 <= i < |s| => (s[i].solver, s[i].score))
  }

  function TableEntries(table: seq<Ranked>): seq<(nat, nat)> {
    seq(|table|, i requires 0 <= i < |table| => (table[i].solver, table[i].score))
  }

  /** The participants in ascending order of score, ranked downwards; the calldata stands with the winner only. */
  ghost predicate IsTable(table: seq<Ranked>, shuffled: seq<Participant>, winner: Participant, callData: Calldata) {
    && |table| == |shuffled|
    && multiset(TableEntries(table)) == multiset(Entries(shuffled))
    && (table != [] ==> (table[|table| - 1].solver, table[|table| - 1].score) == (winner.solver, winner.score))
    && (forall i :: 0 <= i < |table| ==> table[i].ranking == |table| - i)
    && (forall i, j :: 0 <= i < j < |table| ==> table[i].score <= table[j].score)
    && (forall i :: 0 <= i < |table| ==> table[i].callData == if table[i].ranking == 1 then Some(callData) else None)
  }

  function Table(solutions: seq<Participant>, callData: Calldata): (r: seq<Ranked>) {
    var n := |solutions|;
    seq(n, i requires 0 <= i < n =>
      Ranked(solutions[i].solver, solutions[i].score, n - i, if n - i == 1 then Some(callData) else None))
  }

  lemma {:induction false} EntriesPermuted(a: seq<Participant>, b: seq<Participant>)
    requires multiset(a) == multiset(b)
    ensures multiset(Entries(a)) == multiset(Entries(b))
  {
    assert |a| == |multiset(a)| == |b|;
    if a == [] {
    } else {
      assert a[0] in multiset(b);
      var k :| 0 <= k < |b| && b[k] == a[0];
      RemoveAt(a, 0);
      RemoveAt(b, k);
      EntriesPermuted(WithoutAt(a, 0), WithoutAt(b, k));
      EntriesWithoutAt(a, 0);
      EntriesWithoutAt(b, k);
    }
  }

  lemma EntriesWithoutAt(s: seq<Participant>, k: nat)
    requires k < |s|
    ensures multiset(Entries(s)) == multiset{(s[k].solver, s[k].score)} + multiset(Entries(WithoutAt(s, k)))
  {
    assert Entries(WithoutAt(s, k)) == WithoutAt(Entries(s), k);
    RemoveAt(Entries(s), k);
  }

  lemma TableSpec(sorted: seq<Participant>, shuffled: seq<Participant>, callData: Calldata)
    requires sorted != [] && IsSorted(sorted, shuffled)
    ensures IsTable(Table(sorted, callData), shuffled, sorted[|sorted| - 1], callData)
  {
    assert TableEntries(Table(sorted, callData)) == Entries(sorted);
    EntriesPermuted(sorted, shuffled);
  }

  /** The loop over the winner's orders. */
  method CollectPrices(auction: Auction, uids: seq<Uid>) returns (prices: map<Token, nat>, feePolicies: seq<(Uid, seq<nat>)>)
    ensures feePolicies == FeePolicies(auction, uids)
    ensures forall t :: t in prices <==> PricedByOrders(auction, uids, t)
    ensures forall t :: t in prices ==> t in auction.prices && prices[t] == auction.prices[t]
  {
    prices := map[];
    feePolicies := [];
    for i := 0 to |uids|
      invariant feePolicies == FeePolicies(auction, uids[..i])
      invariant forall t :: t in prices <==> PricedByOrders(auction, uids[..i], t)
      invariant forall t :: t in prices ==> prices[t] == auction.prices[t]
    {
      var uid := uids[i];
      assert uids[..i + 1] == uids[..i] + [uid] && uids[..i + 1][..i] == uids[..i];
      ghost var before := prices;
      match FindOrder(auction.orders, uid) {
        case None =>
        case Some(o) =>
          feePolicies := feePolicies + [(o.uid, o.protocolFees)];
          if o.sellToken in auction.prices { prices := prices[o.sellToken := auction.prices[o.sellToken]]; }
          if o.buyToken in auction.prices { prices := prices[o.buyToken := auction.prices[o.buyToken]]; }
      }
      forall t ensures t in prices <==> PricedByOrders(auction, uids[..i + 1], t) {
        PricedByOneMore(auction, uids[..i], uid, t);
        assert t in prices <==> t in before || (t in auction.prices && TradesToken(auction, uid, t));
      }
    }
    assert uids[..|uids|] == uids;
  }

  lemma PricedByOneMore(auction: Auction, uids: seq<Uid>, uid: Uid, t: Token)
    ensures PricedByOrders(auction, uids + [uid], t) <==>
              PricedByOrders(auction, uids, t) || (t in auction.prices && TradesToken(auction, uid, t))
  {
    assert forall u :: u in uids + [uid] <==> u in uids || u == uid;
  }

  /** The recorded winner is a participant with the winning score; prices, fees and the first rank are its own. */
  ghost predicate IsWinner(auction: Auction, shuffled: seq<Participant>, c: CompetitionRecord, w: Participant,
                           callData: Calldata) {
    && IsTable(c.table, shuffled, w, callData)
    && w in shuffled && c.winner == w.solver && c.winningScore == w.score
    && AreFeePolicies(auction, w.orders, c.feePolicies)
    && (forall t :: t in c.prices <==> PricedByOrders(auction, w.orders, t))
  }

  lemma LastIsMember(sorted: seq<Participant>, shuffled: seq<Participant>)
    requires sorted != [] && multiset(sorted) == multiset(shuffled)
    ensures sorted[|sorted| - 1] in shuffled
  {
    assert sorted[|sorted| - 1] in multiset(shuffled);
  }

  lemma ScoresAscend(sorted: seq<Participant>)
    requires sorted != [] && forall i, j :: 0 <= i < j < |sorted| ==> sorted[i].score <= sorted[j].score
    ensures var n, scores := |sorted|, ScoresOf(sorted);
            && |scores| == n && scores[n - 1] == sorted[n - 1].score && (n >= 2 ==> scores[n - 2] == sorted[n - 2].score)
            && forall i, j :: 0 <= i < j < n ==> scores[i] <= scores[j]
  {
    assert forall i :: 0 <= i < |sorted| ==> ScoresOf(sorted)[i] == ScoreOf(sorted[i]);
  }

  lemma TopTwoOfSorted(sorted: seq<Participant>)
    requires sorted != [] && forall i, j :: 0 <= i < j < |sorted| ==> sorted[i].score <= sorted[j].score
    ensures IsTopTwo(multiset(ScoresOf(sorted)), sorted[|sorted| - 1].score, if |sorted| >= 2 then sorted[|sorted| - 2].score else 0)
  {
    ScoresAscend(sorted);
    LastTwoAreTopTwo(ScoresOf(sorted));
  }

  /** The last of the ascending list wins, and the one before it sets the reference score. */
  lemma WinnerIsBest(sorted: seq<Participant>, shuffled: seq<Participant>)
    requires sorted != [] && IsSorted(sorted, shuffled)
    ensures sorted[|sorted| - 1] in shuffled
    ensures IsTopTwo(multiset(ScoresOf(shuffled)), sorted[|sorted| - 1].score, if |sorted| >= 2 then sorted[|sorted| - 2].score else 0)
  {
    LastIsMember(sorted, shuffled);
    TopTwoOfSorted(sorted);
  }

  /** Sorts the solutions, picks winner and reference score, and draws up the table. */
  method RankSolutions(shuffled: seq<Participant>, callData: Calldata)
    returns (winner: Participant, referenceScore: nat, table: seq<Ranked>)
    requires shuffled != []
    ensures winner in shuffled && IsTopTwo(multiset(ScoresOf(shuffled)), winner.score, referenceScore)
    ensures IsTable(table, shuffled, winner, callData)
  {
    var solutions := SortByScore(shuffled);
    var n := |solutions|;
    winner := solutions[n - 1];
    referenceScore := if n >= 2 then solutions[n - 2].score else 0;
    table := Table(solutions, callData);
    WinnerIsBest(solutions, shuffled);
    TableSpec(solutions, shuffled, callData);
  }

  /** No other slot scores more than x, and the reference is the best score of the other slots, or zero without any. */
  ghost predicate IsWinningSlot(responses: seq<Option<seq<Proposed>>>, x: Slot, score: int, reference: int) {
    && IsValidSlot(responses, x) && score == EntrantAt(responses, x).score
    && (forall y :: IsValidSlot(responses, y) ==> EntrantAt(responses, y).score <= score)
    && (forall y :: y != x && IsValidSlot(responses, y) ==> EntrantAt(responses, y).score <= reference)
    && (reference == 0 || exists y :: y != x && IsValidSlot(responses, y) && EntrantAt(responses, y).score == reference)
    && ((exists y :: y != x && IsValidSlot(responses, y)) ==> reference > 0)
  }

  /** Taking out one occurrence of a participant takes out its score. */
  lemma ScoresWithout(shuffled: seq<Participant>, k: nat)
    requires k < |shuffled|
    ensures multiset(ScoresOf(shuffled)) - multiset{shuffled[k].score} == multiset(ScoresOf(WithoutAt(shuffled, k)))
    ensures multiset(shuffled) - multiset{shuffled[k]} == multiset(WithoutAt(shuffled, k))
  {
    RemoveAt(shuffled, k);
    KeysWithoutAt(shuffled, k, ScoreOf);
    RemoveAt(ScoresOf(shuffled), k);
  }

  lemma ScoreAmong(s: seq<Participant>, score: int)
    ensures score in multiset(ScoresOf(s)) <==> exists p :: p in multiset(s) && p.score == score
  {
    if score in multiset(ScoresOf(s)) {
      var i :| 0 <= i < |ScoresOf(s)| && ScoresOf(s)[i] == score;
      assert s[i] in multiset(s);
    }
    if p :| p in multiset(s) && p.score == score {
      var i :| 0 <= i < |s| && s[i] == p;
      assert ScoresOf(s)[i] == score;
    }
  }

  /** The scores besides the winner's are those of the other slots. */
  lemma OtherScores(responses: seq<Option<seq<Proposed>>>, shuffled: seq<Participant>, x: Slot, score: int)
    requires multiset(shuffled) == multiset(Competition(responses, 0)) && IsValidSlot(responses, x)
    requires EntrantAt(responses, x) in shuffled
    ensures score in multiset(ScoresOf(shuffled)) - multiset{EntrantAt(responses, x).score} <==>
              exists y :: y != x && IsValidSlot(responses, y) && EntrantAt(responses, y).score == score
  {
    var w := EntrantAt(responses, x);
    var k :| 0 <= k < |shuffled| && shuffled[k] == w;
    ScoresWithout(shuffled, k);
    ScoreAmong(WithoutAt(shuffled, k), score);
    if p :| p in multiset(shuffled) - multiset{w} && p.score == score {
      OthersAreOtherSlots(responses, shuffled, x, p);
    }
    if y :| y != x && IsValidSlot(responses, y) && EntrantAt(responses, y).score == score {
      OthersAreOtherSlots(responses, shuffled, x, EntrantAt(responses, y));
    }
  }

  lemma SlotOf(responses: seq<Option<seq<Proposed>>>, w: Participant) returns (x: Slot)
    requires IsValidProposal(responses, w)
    ensures IsValidSlot(responses, x) && EntrantAt(responses, x) == w
  {
    var proposed := responses[w.driver].value;
    assert ProposalOf(w) in proposed;
    var i :| 0 <= i < |proposed| && proposed[i] == ProposalOf(w);
    x := Slot(w.driver, i);
  }

  lemma SlotTakesPart(responses: seq<Option<seq<Proposed>>>, shuffled: seq<Participant>, y: Slot)
    requires forall p :: p in shuffled <==> IsValidProposal(responses, p)
    requires IsValidSlot(responses, y)
    ensures EntrantAt(responses, y) in shuffled && EntrantAt(responses, y).score in multiset(ScoresOf(shuffled))
  {
    assert IsValidProposal(responses, EntrantAt(responses, y));
    ScoreAmong(shuffled, EntrantAt(responses, y).score);
    assert EntrantAt(responses, y) in multiset(shuffled);
  }

  lemma WinnerHasSlot(responses: seq<Option<seq<Proposed>>>, shuffled: seq<Participant>, w: Participant,
                      reference: int) returns (x: Slot)
    requires multiset(shuffled) == multiset(Competition(responses, 0))
    requires w in shuffled && IsTopTwo(multiset(ScoresOf(shuffled)), w.score, reference)
    ensures IsValidSlot(responses, x) && EntrantAt(responses, x) == w && IsWinningSlot(responses, x, w.score, reference)
  {
    ShuffledOffers(responses, shuffled);
    x := SlotOf(responses, w);
    forall y | IsValidSlot(responses, y) ensures EntrantAt(responses, y).score <= w.score { SlotTakesPart(responses, shuffled, y); }
    forall score ensures score in multiset(ScoresOf(shuffled)) - multiset{w.score} <==>
                           exists y :: y != x && IsValidSlot(responses, y) && EntrantAt(responses, y).score == score {
      OtherScores(responses, shuffled, x, score);
    }
    ReferenceOfOthers(responses, multiset(ScoresOf(shuffled)) - multiset{w.score}, x, reference);
  }

  lemma ReferenceOfOthers(responses: seq<Option<seq<Proposed>>>, others: multiset<int>, x: Slot, reference: int)
    requires IsMaxOrZero(reference, others)
    requires forall score :: score in others <==> exists y :: y != x && IsValidSlot(responses, y) && EntrantAt(responses, y).score == score
    ensures forall y :: y != x && IsValidSlot(responses, y) ==> EntrantAt(responses, y).score <= reference
    ensures reference == 0 || exists y :: y != x && IsValidSlot(responses, y) && EntrantAt(responses, y).score == reference
    ensures (exists y :: y != x && IsValidSlot(responses, y)) ==> reference > 0
  {
    forall y | y != x && IsValidSlot(responses, y) ensures 0 < EntrantAt(responses, y).score <= reference {
      assert EntrantAt(responses, y).score in others;
    }
  }

  /** `shuffled` is any arrangement of the competition's solutions; the sort then splits ties by that order. */
  method SingleRun(auction: Auction, responses: seq<Option<seq<Proposed>>>, shuffled: seq<Participant>,
                   revealed: Option<Calldata>)
    returns (r: Option<CompetitionRecord>)
    requires multiset(shuffled) == multiset(Competition(responses, 0))
    ensures r.Some? <==> revealed.Some? && exists p :: IsValidProposal(responses, p)
    ensures r.Some? ==> IsTopTwo(multiset(ScoresOf(shuffled)), r.value.winningScore, r.value.referenceScore)
    ensures r.Some? ==> exists x :: IsWinningSlot(responses, x, r.value.winningScore, r.value.referenceScore) &&
                          IsWinner(auction, shuffled, r.value, EntrantAt(responses, x), revealed.value)
    ensures r.Some? ==> forall t :: t in r.value.prices ==> t in auction.prices && r.value.prices[t] == auction.prices[t]
  {
    ShuffledOffers(responses, shuffled);
    if shuffled == [] || revealed == None {
      return None;
    }
    assert IsValidProposal(responses, shuffled[0]);
    var winner, referenceScore, table := RankSolutions(shuffled, revealed.value);
    var prices, feePolicies := CollectPrices(auction, winner.orders);
    var record := CompetitionRecord(winner.solver, winner.score, referenceScore, prices, feePolicies, table);
    FeePoliciesAre(auction, winner.orders);
    ghost var x := WinnerHasSlot(responses, shuffled, winner, referenceScore);
    assert IsWinner(auction, shuffled, record, winner, revealed.value);
    r := Some(record);
  }

  /** Every rank from 1 to n is given once. */
  lemma RanksOnce(table: seq<Ranked>, shuffled: seq<Participant>, winner: Participant, callData: Calldata, rank: nat)
    requires IsTable(table, shuffled, winner, callData) && 1 <= rank <= |table|
    ensures exists i :: 0 <= i < |table| && table[i].ranking == rank && forall j :: 0 <= j < |table| && j != i ==> table[j].ranking != rank
  {
    assert table[|table| - rank].ranking == rank;
  }

  // ---- The shadow loop -----------------------------------------------------------------------

  datatype Failure = Timeout | NoSolutions | ZeroScore | Mismatch | SolveError | RevealError

  datatype ShadowParticipant = ShadowParticipant(driver: nat, solution: Result<nat, Failure>)

  function Score(p: ShadowParticipant): nat {
    match p.solution case Ok(score) => score case Err(_) => 0
  }

  datatype SolveResponse = TimedOut | Failed | Solved(proposals: seq<(nat, nat)>)

  /** `max_by_key`: the last of the best (score, id) pairs. */
  function MaxByScore(s: seq<(nat, nat)>): (r: (nat, nat))
    requires s != []
    ensures r in s && forall x :: x in s ==> x.0 <= r.0
    ensures exists k :: 0 <= k < |s| && s[k] == r && forall j :: k < j < |s| ==> s[j].0 < r.0
  {
    if |s| == 1 then s[0]
    else
      var rest := MaxByScore(s[1..]);
      if s[0].0 > rest.0 then s[0] else rest
  }

  /** The proposal with this score and id is chosen and its calldata belongs to the auction. */
  ghost predicate Reveals(proposals: seq<(nat, nat)>, revealedBy: nat -> Option<bool>) {
    proposals != [] && MaxByScore(proposals).0 > 0 && revealedBy(MaxByScore(proposals).1) == Some(true)
  }

  /** A driver takes part with its best non-zero score, provided it reveals calldata for this auction. */
  function Participate(response: SolveResponse, revealedBy: nat -> Option<bool>): (r: Result<nat, Failure>)
    ensures r.Ok? <==> response.Solved? && Reveals(response.proposals, revealedBy)
    ensures r.Err? && r.error == Timeout <==> response.TimedOut?
    ensures r.Err? && r.error == SolveError <==> response.Failed?
    ensures r.Err? && r.error == NoSolutions <==> response.Solved? && response.proposals == []
    ensures r.Err? && r.error == ZeroScore <==>
              (response.Solved? && response.proposals != [] && forall p :: p in response.proposals ==> p.0 == 0)
    ensures r.Ok? ==> r.value > 0 && response.Solved? && (exists p :: p in response.proposals && p.0 == r.value)
                      && (forall p :: p in response.proposals ==> p.0 <= r.value)
  {
    match response
    case TimedOut => Err(Timeout)
    case Failed => Err(SolveError)
    case Solved(proposals) =>
      if proposals == [] then Err(NoSolutions)
      else
        var (score, id) := MaxByScore(proposals);
        if score == 0 then Err(ZeroScore)
        else
          match revealedBy(id)
          case None => Err(RevealError)
          case Some(matches) => if matches then Ok(score) else Err(Mismatch)
  }

  function ShadowScore(p: ShadowParticipant): int {
    Score(p)
  }

  function ReverseScore(p: ShadowParticipant): int {
    -ShadowScore(p)
  }

  function ShadowScores(s: seq<ShadowParticipant>): seq<int> {
    Keys(s, ShadowScore)
  }

  datatype ShadowResult = ShadowResult(driver: nat, score: nat, referenceScore: nat, reward: nat)

  /** First and second of a descending list are its top two. */
  lemma FirstTwoAreTopTwo(s: seq<int>)
    requires s != [] && forall i, j :: 0 <= i < j < |s| ==> s[i] >= s[j]
    ensures IsTopTwo(multiset(s), s[0], if |s| >= 2 then s[1] else 0)
  {
    assert WithoutAt(s, 0) == s[1..];
    TopTwoFrom(s, 0, if |s| >= 2 then s[1] else 0);
  }

  lemma DescendingScores(shuffled: seq<ShadowParticipant>)
    ensures var sorted := SortByKey(shuffled, ReverseScore);
            && |sorted| == |shuffled| && (forall p :: p in shuffled <==> p in sorted)
            && (forall i, j :: 0 <= i < j < |sorted| ==> Score(sorted[i]) >= Score(sorted[j]))
            && multiset(ShadowScores(sorted)) == multiset(ShadowScores(shuffled))
  {
    var sorted := SortByKey(shuffled, ReverseScore);
    SortSpec(shuffled, ReverseScore);
    KeysPermuted(sorted, shuffled, ShadowScore);
    forall i, j | 0 <= i < j < |sorted| ensures Score(sorted[i]) >= Score(sorted[j]) {
      assert ReverseScore(sorted[i]) <= ReverseScore(sorted[j]);
    }
    forall p ensures p in shuffled <==> p in sorted { assert p in multiset(shuffled) <==> p in multiset(sorted); }
  }

  /** The reward is a checked subtraction that cannot fail: the type of `reward` is a natural number. */
  method ShadowRun(shuffled: seq<ShadowParticipant>) returns (r: Option<ShadowResult>)
    requires forall p :: p in shuffled && p.solution.Ok? ==> p.solution.value > 0
    ensures r.Some? <==> exists p :: p in shuffled && p.solution.Ok?
    ensures r.Some? ==> IsTopTwo(multiset(ShadowScores(shuffled)), r.value.score, r.value.referenceScore)
    ensures r.Some? ==> ShadowParticipant(r.value.driver, Ok(r.value.score)) in shuffled
    ensures r.Some? ==> r.value.reward + r.value.referenceScore == r.value.score
  {
    var participants := SortByKey(shuffled, ReverseScore);
    DescendingScores(shuffled);
    r := None;
    if participants != [] {
      FirstTwoAreTopTwo(ShadowScores(participants));
      var first := participants[0];
      if first.solution.Ok? {
        var referenceScore := if |participants| >= 2 then Score(participants[1]) else 0;
        var reward: nat := first.solution.value - referenceScore;
        r := Some(ShadowResult(first.driver, first.solution.value, referenceScore, reward));
        assert ShadowParticipant(first.driver, Ok(first.solution.value)) == first;
      } else {
        forall p | p in shuffled ensures !p.solution.Ok? {
          var i :| 0 <= i < |participants| && participants[i] == p;
          assert Score(participants[i]) <= Score(first) == 0;
        }
      }
    }
  }

  /** On the same non-zero scores both loops report the same winning and reference score. */
  lemma LoopsAgree(run: seq<Participant>, shadow: seq<ShadowParticipant>, b1: int, r1: int, b2: int, r2: int)
    requires forall p :: p in run ==> p.score > 0
    requires multiset(ShadowScores(shadow))[0 := 0] == multiset(ScoresOf(run))
    requires IsTopTwo(multiset(ScoresOf(run)), b1, r1) && IsTopTwo(multiset(ShadowScores(shadow)), b2, r2)
    ensures b1 == b2 && r1 == r2
  {
    var scores, all := multiset(ScoresOf(run)), multiset(ShadowScores(shadow));
    forall y | y in scores ensures y > 0 {
      assert y in ScoresOf(run);
      var i :| 0 <= i < |run| && ScoresOf(run)[i] == y;
      assert run[i] in run;
    }
    assert all == scores[0 := all[0]];
    FailuresDoNotMatter(scores, all[0], b1, r1);
    TopTwoUnique(all, b1, r1, b2, r2);
  }
}
