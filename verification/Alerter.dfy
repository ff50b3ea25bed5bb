/** The "no trades although an order is matchable" alert: crates/alerter/src/lib.rs. */
module Alerter {
  import opened Prelude

  type Uid = nat
  type Instant = int

  datatype Class = Market | Limit | Liquidity
  datatype Order = Order(uid: Uid, orderClass: Class, partiallyFillable: bool)

  datatype AlertConfig = AlertConfig(timeWithoutTrade: nat, minOrderSolvableTime: nat, minAlertInterval: nat)

  type OpenOrders = map<Uid, (Order, Option<Instant>)>

  /** What the alerter has seen and done. `lag` is how much later the alert interval was measured. */
  datatype Event =
    | Snapshot(uids: set<Uid>)
    | RecentTrade
    | Check(uid: Uid, settleable: bool, at: Instant)
    | Alert(alerted: Uid, raisedAt: Instant, lag: nat)

  datatype Outcome =
    | Failed
    | Quiet
    | Unsolvable
    | Solvable(uid: Uid, since: Instant, now: Instant, alerted: bool)

  // ---- What a stored time means --------------------------------------------------------------

  /** The event does not speak against the order being matchable. */
  predicate Supports(e: Event, uid: Uid) {
    match e
    case Snapshot(uids) => uid in uids
    case RecentTrade => false
    case Check(u, settleable, _) => u == uid ==> settleable
    case Alert(_, _, _) => true
  }

  /** Nothing from position `from` on speaks against the order being matchable all along. */
  ghost predicate Unbroken(h: seq<Event>, uid: Uid, from: nat) {
    forall j :: from <= j < |h| ==> Supports(h[j], uid)
  }

  /** The order was settleable at t; since then it was in every snapshot, failed no check, and no trade was recent. */
  ghost predicate SolvableSince(h: seq<Event>, uid: Uid, t: Instant) {
    exists i :: 0 <= i < |h| && h[i] == Check(uid, true, t) && Unbroken(h, uid, i + 1)
  }

  /** Every alert is backed by an order matchable for longer than the configured time. */
  ghost predicate AlertsBacked(h: seq<Event>, config: AlertConfig) {
    forall p :: 0 <= p < |h| && h[p].Alert? ==> Backed(h[..p], config, h[p].alerted, h[p].raisedAt)
  }

  ghost predicate Backed(h: seq<Event>, config: AlertConfig, uid: Uid, at: Instant) {
    exists t :: at - t > config.minOrderSolvableTime && SolvableSince(h, uid, t)
  }

  /** Any two alerts are the minimum interval apart, up to the lag of the later one's second clock reading. */
  ghost predicate AlertsSpaced(h: seq<Event>, config: AlertConfig) {
    forall p, q :: 0 <= p < q < |h| && h[p].Alert? && h[q].Alert? ==>
      h[q].raisedAt + h[q].lag - h[p].raisedAt >= config.minAlertInterval
  }

  /** `last` is the time of the latest alert. */
  ghost predicate IsLastAlert(h: seq<Event>, last: Option<Instant>) {
    && (last.None? ==> forall p :: 0 <= p < |h| ==> !h[p].Alert?)
    && (last.Some? ==> forall p :: 0 <= p < |h| && h[p].Alert? ==> h[p].raisedAt <= last.value)
  }

  ghost predicate TimesJustified(h: seq<Event>, open: OpenOrders) {
    forall uid :: uid in open && open[uid].1.Some? ==> SolvableSince(h, uid, open[uid].1.value)
  }

  /** No span is forgotten: an order matchable since t is open and carries a time no later than t. */
  ghost predicate TimesComplete(h: seq<Event>, open: OpenOrders) {
    forall uid, t :: SolvableSince(h, uid, t) ==> uid in open && open[uid].1.Some? && open[uid].1.value <= t
  }

  function StoredTime(open: OpenOrders, uid: Uid): Option<Instant> {
    if uid in open then open[uid].1 else None
  }

  /** How an event changes the time stored for an order. */
  function After(e: Event, uid: Uid, time: Option<Instant>): Option<Instant> {
    match e
    case Check(u, settleable, at) => if u != uid then time else if settleable then Some(UnwrapOr(time, at)) else None
    case _ => if Supports(e, uid) then time else None
  }

  /** The time the whole history leaves for an order. */
  function Replay(h: seq<Event>, uid: Uid): Option<Instant> {
    if h == [] then None else After(h[|h| - 1], uid, Replay(h[..|h| - 1], uid))
  }

  /** The stored times are those of the history: of every order, open or not. */
  ghost predicate Replayed(h: seq<Event>, open: OpenOrders) {
    forall uid :: StoredTime(open, uid) == Replay(h, uid)
  }

  lemma ReplayedOneMore(h: seq<Event>, e: Event, open: OpenOrders, r: OpenOrders)
    requires Replayed(h, open)
    requires forall uid :: StoredTime(r, uid) == After(e, uid, StoredTime(open, uid))
    ensures Replayed(h + [e], r)
  {
    forall uid ensures Replay(h + [e], uid) == After(e, uid, Replay(h, uid)) {
      assert (h + [e])[..|h|] == h;
    }
  }

  /** The order was checked. */
  ghost predicate Mentions(events: seq<Event>, uid: Uid) {
    exists e :: e in events && e.Check? && e.uid == uid
  }

  lemma ReplayOneMore(h: seq<Event>, e: Event, uid: Uid)
    ensures Replay(h + [e], uid) == After(e, uid, Replay(h, uid))
  {
    assert (h + [e])[..|h|] == h;
  }

  lemma MentionsOneMore(events: seq<Event>, e: Event, uid: Uid)
    requires e.Check?
    ensures Mentions(events + [e], uid) <==> Mentions(events, uid) || e.uid == uid
  {
    assert e in events + [e];
    if Mentions(events, uid) {
      var x :| x in events && x.Check? && x.uid == uid;
      assert x in events + [e];
    }
  }

  lemma {:induction false} RejectionsReplay(h: seq<Event>, events: seq<Event>, uid: Uid)
    requires forall e :: e in events ==> e.Check? && !e.settleable
    ensures Replay(h + events, uid) == if Mentions(events, uid) then None else Replay(h, uid)
  {
    if events == [] {
      assert h + events == h;
    } else {
      var n := |events| - 1;
      var before, e := events[..n], events[n];
      assert events == before + [e] && h + events == (h + before) + [e] && e in events;
      RejectionsReplay(h, before, uid);
      ReplayOneMore(h + before, e, uid);
      MentionsOneMore(before, e, uid);
    }
  }

  /** The answers of a single round of failed checks: each of these orders once, when the quote said so. */
  ghost predicate Rejections(events: seq<Event>, uids: set<Uid>, settle: Uid -> Option<bool>, low: Instant, high: Instant) {
    && (forall e :: e in events ==>
          e.Check? && !e.settleable && e.uid in uids && settle(e.uid) == Some(false) && low <= e.at <= high)
    && (forall uid :: uid in uids ==> Mentions(events, uid))
    && forall i, j :: 0 <= i < j < |events| && events[i].Check? && events[j].Check? ==> events[i].uid != events[j].uid
  }

  /** The loop has seen the orders outside `rest`, and all were rejected. */
  ghost predicate Scanned(h: seq<Event>, h': seq<Event>, open: set<Uid>, rest: set<Uid>, settle: Uid -> Option<bool>,
                          low: Instant, high: Instant) {
    h <= h' && rest <= open && low <= high && Rejections(h'[|h|..], open - rest, settle, low, high)
  }

  lemma ScannedOneMore(h: seq<Event>, h': seq<Event>, open: set<Uid>, rest: set<Uid>, settle: Uid -> Option<bool>,
                       low: Instant, high: Instant, uid: Uid, now: Instant)
    requires Scanned(h, h', open, rest, settle, low, high) && uid in rest && settle(uid) == Some(false) && high <= now
    ensures Scanned(h, h' + [Check(uid, false, now)], open, rest - {uid}, settle, low, now)
  {
    OneMoreRejection(h'[|h|..], open - rest, settle, low, high, uid, now);
    assert (h' + [Check(uid, false, now)])[|h|..] == h'[|h|..] + [Check(uid, false, now)];
    assert open - (rest - {uid}) == open - rest + {uid};
  }

  lemma OneMoreRejection(events: seq<Event>, uids: set<Uid>, settle: Uid -> Option<bool>, low: Instant, high: Instant,
                         uid: Uid, now: Instant)
    requires Rejections(events, uids, settle, low, high) && uid !in uids && settle(uid) == Some(false) && low <= high <= now
    ensures Rejections(events + [Check(uid, false, now)], uids + {uid}, settle, low, now)
  {
    var r := events + [Check(uid, false, now)];
    assert r[|events|] == Check(uid, false, now);
    forall u | u in uids + {uid} ensures Mentions(r, u) {
      if u == uid {
        assert Check(uid, false, now) in r;
      } else {
        var e :| e in events && e.Check? && e.uid == u;
        assert e in r;
      }
    }
    forall i | 0 <= i < |events| ensures events[i].Check? && events[i].uid != uid { assert events[i] in events; }
  }

  function AlertIf(alerted: bool, uid: Uid, now: Instant, lag: nat): seq<Event> {
    if alerted then [Alert(uid, now, lag)] else []
  }

  /** What an iteration records after its snapshot: checks that say what the quotes said, and an alert only if it raised one. */
  ghost predicate Records(events: seq<Event>, r: Outcome, open: set<Uid>, settle: Uid -> Option<bool>, low: Instant,
                          high: Instant, lag: nat) {
    match r
    case Quiet => events == [RecentTrade]
    case Failed => exists uids :: uids <= open && Rejections(events, uids, settle, low, high)
    case Unsolvable => Rejections(events, open, settle, low, high)
    case Solvable(uid, _, now, alerted) =>
      && low <= now <= high
      && exists uids, rejected :: uids <= open && Rejections(rejected, uids, settle, low, high)
           && events == rejected + [Check(uid, true, now)] + AlertIf(alerted, uid, now, lag)
  }

  lemma NothingRecorded(events: seq<Event>, open: set<Uid>, settle: Uid -> Option<bool>, low: Instant, high: Instant, lag: nat)
    requires events == []
    ensures Records(events, Failed, open, settle, low, high, lag)
  {
    assert Rejections(events, {}, settle, low, high);
  }

  lemma RecordsOnSolvable(rejected: seq<Event>, uids: set<Uid>, r: Outcome, open: set<Uid>,
                          settle: Uid -> Option<bool>, low: Instant, mid: Instant, high: Instant, lag: nat)
    requires r.Solvable? && low <= mid <= r.now <= high && uids <= open && Rejections(rejected, uids, settle, low, mid)
    ensures Records(rejected + [Check(r.uid, true, r.now)] + AlertIf(r.alerted, r.uid, r.now, lag), r, open, settle, low, high, lag)
  {
    assert Rejections(rejected, uids, settle, low, high);
  }

  lemma RecordsDecided(h: seq<Event>, h': seq<Event>, h'': seq<Event>, r: Outcome, open: set<Uid>, rest: set<Uid>,
                       settle: Uid -> Option<bool>, low: Instant, mid: Instant, high: Instant, lag: nat)
    requires Scanned(h, h', open, rest, settle, low, mid) && mid <= high
    requires (r.Failed? && h'' == h') || (r.Solvable? && r.now == high)
    requires r.Solvable? ==> h'' == h' + [Check(r.uid, true, high)] + AlertIf(r.alerted, r.uid, high, lag)
    ensures Records(h''[|h|..], r, open, settle, low, high, lag)
  {
    if r.Failed? {
      assert Rejections(h''[|h|..], open - rest, settle, low, high);
    } else {
      assert h''[|h|..] == h'[|h|..] + [Check(r.uid, true, high)] + AlertIf(r.alerted, r.uid, high, lag);
      RecordsOnSolvable(h'[|h|..], open - rest, r, open, settle, low, mid, high, lag);
    }
  }

  lemma RecordsAllRejected(h: seq<Event>, h': seq<Event>, open: set<Uid>, settle: Uid -> Option<bool>, low: Instant,
                           high: Instant, lag: nat)
    requires Scanned(h, h', open, {}, settle, low, high)
    ensures Records(h'[|h|..], Unsolvable, open, settle, low, high, lag)
  {
    assert open - {} == open;
  }

  lemma RecordsLater(events: seq<Event>, r: Outcome, open: set<Uid>, settle: Uid -> Option<bool>, first: Instant,
                     low: Instant, high: Instant, lag: nat)
    requires first <= low && Records(events, r, open, settle, low, high, lag)
    ensures Records(events, r, open, settle, first, high, lag)
  {
    match r {
      case Quiet =>
      case Failed =>
        var uids :| uids <= open && Rejections(events, uids, settle, low, high);
        assert Rejections(events, uids, settle, first, high);
      case Unsolvable =>
      case Solvable(uid, _, now, alerted) =>
        var uids, rejected :| uids <= open && Rejections(rejected, uids, settle, low, high)
             && events == rejected + [Check(uid, true, now)] + AlertIf(alerted, uid, now, lag);
        assert Rejections(rejected, uids, settle, first, high);
    }
  }

  /** Every check on record says what the quote for that order said at a time within the iteration. */
  lemma ChecksAreHonest(events: seq<Event>, r: Outcome, open: set<Uid>, settle: Uid -> Option<bool>, low: Instant,
                        high: Instant, lag: nat, e: Event)
    requires Records(events, r, open, settle, low, high, lag) && e in events
    requires r.Solvable? ==> settle(r.uid) == Some(true)
    ensures e.Check? ==> settle(e.uid) == Some(e.settleable) && low <= e.at <= high
    ensures e.Alert? ==> r.Solvable? && r.alerted && e == Alert(r.uid, r.now, lag)
    ensures e.RecentTrade? ==> r.Quiet?
    ensures !e.Snapshot?
  {
  }

  /** A span that lasts through an event began with it or lasted before it. */
  lemma SolvableBefore(h: seq<Event>, e: Event, uid: Uid, t: Instant)
    requires SolvableSince(h + [e], uid, t)
    ensures e == Check(uid, true, t) || (SolvableSince(h, uid, t) && Supports(e, uid))
  {
    var r := h + [e];
    var i :| 0 <= i < |r| && r[i] == Check(uid, true, t) && Unbroken(r, uid, i + 1);
    if i < |h| {
      assert r[|h|] == e && h[i] == r[i];
      forall j | i + 1 <= j < |h| ensures Supports(h[j], uid) { assert r[j] == h[j]; }
    }
  }

  lemma NothingEarlier(h: seq<Event>, open: OpenOrders, uid: Uid, since: Instant)
    requires TimesComplete(h, open) && (StoredTime(open, uid).Some? ==> since == StoredTime(open, uid).value)
    ensures forall t :: SolvableSince(h, uid, t) ==> since <= t
  {
  }

  /** The times stay complete if every order the event supports keeps its time. */
  lemma CompleteKept(h: seq<Event>, e: Event, open: OpenOrders, r: OpenOrders)
    requires TimesComplete(h, open) && !e.Check?
    requires forall uid :: uid in open && Supports(e, uid) ==> uid in r && r[uid].1 == open[uid].1
    ensures TimesComplete(h + [e], r)
  {
    forall uid, t | SolvableSince(h + [e], uid, t) ensures uid in r && r[uid].1.Some? && r[uid].1.value <= t {
      SolvableBefore(h, e, uid, t);
    }
  }

  lemma CompleteAfterCheck(h: seq<Event>, u: Uid, settleable: bool, now: Instant, open: OpenOrders, r: OpenOrders)
    requires TimesComplete(h, open) && u in r
    requires forall uid :: uid in open && uid != u ==> uid in r && r[uid].1 == open[uid].1
    requires settleable ==> r[u].1.Some? && r[u].1.value <= now
    requires settleable && u in open && open[u].1.Some? ==> r[u].1 == open[u].1
    ensures TimesComplete(h + [Check(u, settleable, now)], r)
  {
    forall uid, t | SolvableSince(h + [Check(u, settleable, now)], uid, t)
      ensures uid in r && r[uid].1.Some? && r[uid].1.value <= t
    {
      SolvableBefore(h, Check(u, settleable, now), uid, t);
    }
  }

  /** An event that does not speak against an order leaves its time justified. */
  lemma StillSolvable(h: seq<Event>, uid: Uid, t: Instant, e: Event)
    requires SolvableSince(h, uid, t) && Unbroken([e], uid, 0)
    ensures SolvableSince(h + [e], uid, t)
  {
    var i :| 0 <= i < |h| && h[i] == Check(uid, true, t) && Unbroken(h, uid, i + 1);
    assert (h + [e])[i] == h[i] && [e][0] == e;
  }

  lemma SolvableNow(h: seq<Event>, uid: Uid, t: Instant)
    ensures SolvableSince(h + [Check(uid, true, t)], uid, t)
  {
    assert (h + [Check(uid, true, t)])[|h|] == Check(uid, true, t);
  }

  lemma OtherEvent(h: seq<Event>, e: Event, config: AlertConfig, last: Option<Instant>)
    requires !e.Alert? && AlertsBacked(h, config) && AlertsSpaced(h, config) && IsLastAlert(h, last)
    ensures AlertsBacked(h + [e], config) && AlertsSpaced(h + [e], config) && IsLastAlert(h + [e], last)
  {
    forall p | 0 <= p < |h| ensures (h + [e])[..p] == h[..p] { }
  }

  lemma AlertEvent(h: seq<Event>, uid: Uid, now: Instant, lag: nat, t: Instant, config: AlertConfig, last: Option<Instant>)
    requires AlertsBacked(h, config) && AlertsSpaced(h, config) && IsLastAlert(h, last)
    requires SolvableSince(h, uid, t) && now - t > config.minOrderSolvableTime
    requires last.Some? ==> last.value <= now && now + lag - last.value >= config.minAlertInterval
    ensures AlertsBacked(h + [Alert(uid, now, lag)], config) && AlertsSpaced(h + [Alert(uid, now, lag)], config)
    ensures IsLastAlert(h + [Alert(uid, now, lag)], Some(now))
  {
    var r := h + [Alert(uid, now, lag)];
    forall p | 0 <= p < |r| && r[p].Alert? ensures Backed(r[..p], config, r[p].alerted, r[p].raisedAt) {
      if p < |h| { assert r[..p] == h[..p]; } else { assert r[..p] == h; assert Backed(h, config, uid, now); }
    }
  }

  /** An order matchable since `since` is alerted at `now` unless the last alert is too recent. */
  predicate Due(config: AlertConfig, since: Instant, now: Instant, lag: nat, last: Option<Instant>) {
    && now - since > config.minOrderSolvableTime
    && (last.Some? ==> now + lag - last.value >= config.minAlertInterval)
  }

  /** What an iteration's outcome says about the new state; `last` is the time of the alert before it. */
  ghost predicate Reports(r: Outcome, open: OpenOrders, gauge: bool, settle: Uid -> Option<bool>,
                          config: AlertConfig, last: Option<Instant>, lag: nat) {
    match r
    case Failed => exists uid :: uid in open && settle(uid) == None
    case Quiet => !gauge && forall uid :: uid in open ==> open[uid].1 == None
    case Unsolvable => !gauge && forall uid :: uid in open ==> settle(uid) == Some(false) && open[uid].1 == None
    case Solvable(uid, since, now, alerted) =>
      && uid in open && open[uid].1 == Some(since) && settle(uid) == Some(true)
      && (alerted <==> Due(config, since, now, lag, last))
      && (now - since > config.minOrderSolvableTime ==> gauge)
  }

  /** All orders outside `rest` were found unsettleable and carry no time. */
  ghost predicate Rejected(open: OpenOrders, rest: set<Uid>, settle: Uid -> Option<bool>) {
    forall uid :: uid in open && uid !in rest ==> settle(uid) == Some(false) && open[uid].1 == None
  }

  lemma RejectedOneMore(open: OpenOrders, rest: set<Uid>, settle: Uid -> Option<bool>, uid: Uid)
    requires Rejected(open, rest, settle) && uid in open && settle(uid) == Some(false)
    ensures Rejected(open[uid := (open[uid].0, None)], rest - {uid}, settle)
  {
  }

  /** The orders in `rest` are as they were before the loop, the others were rejected. */
  ghost predicate Progress(before: OpenOrders, open: OpenOrders, rest: set<Uid>, settle: Uid -> Option<bool>) {
    && rest <= open.Keys == before.Keys
    && (forall u :: u in rest ==> open[u] == before[u])
    && Rejected(open, rest, settle)
  }

  lemma LoopStarts(open: OpenOrders, h: seq<Event>, now: Instant, settle: Uid -> Option<bool>)
    ensures Progress(open, open, open.Keys, settle) && Scanned(h, h, open.Keys, open.Keys, settle, now, now)
  {
  }

  lemma ProgressOneMore(before: OpenOrders, open: OpenOrders, r: OpenOrders, rest: set<Uid>,
                        settle: Uid -> Option<bool>, uid: Uid)
    requires Progress(before, open, rest, settle) && r.Keys == open.Keys && uid in rest
    requires forall u :: u in r && u != uid ==> r[u] == open[u]
    requires Rejected(r, rest - {uid}, settle)
    ensures Progress(before, r, rest - {uid}, settle)
  {
  }

  /**
   * What an iteration does to the time of every open order: a recent trade and a failed check drop it, the order found
   * solvable gets one unless it has one, and whoever the loop did not reach keeps what was stored.
   */
  lemma WhoKeepsItsTime(h: seq<Event>, events: seq<Event>, r: Outcome, open: set<Uid>, settle: Uid -> Option<bool>,
                        low: Instant, high: Instant, lag: nat, uid: Uid)
    requires Records(events, r, open, settle, low, high, lag) && uid in open
    requires r.Solvable? ==> settle(r.uid) == Some(true)
    ensures var time := Replay(h + [Snapshot(open)] + events, uid);
            if r.Solvable? && uid == r.uid then time == Some(UnwrapOr(Replay(h, uid), r.now))
            else time == if r.Quiet? || Mentions(events, uid) then None else Replay(h, uid)
    ensures r.Unsolvable? ==> Mentions(events, uid)
  {
    var taken := h + [Snapshot(open)];
    ReplayOneMore(h, Snapshot(open), uid);
    match r {
      case Quiet => ReplayOneMore(taken, RecentTrade, uid);
      case Failed => RejectionsReplay(taken, events, uid);
      case Unsolvable => RejectionsReplay(taken, events, uid);
      case Solvable(u, _, now, alerted) =>
        var uids, rejected :| uids <= open && Rejections(rejected, uids, settle, low, high)
             && events == rejected + [Check(u, true, now)] + AlertIf(alerted, u, now, lag);
        RejectionsReplay(taken, rejected, uid);
        SolvableReplay(taken, rejected, u, now, alerted, lag, uid);
    }
  }

  lemma SolvableReplay(h: seq<Event>, rejected: seq<Event>, u: Uid, now: Instant, alerted: bool, lag: nat, uid: Uid)
    requires u == uid ==> !Mentions(rejected, uid)
    ensures var events := rejected + [Check(u, true, now)] + AlertIf(alerted, u, now, lag);
            && Replay(h + events, uid) == After(Check(u, true, now), uid, Replay(h + rejected, uid))
            && (u != uid ==> (Mentions(events, uid) <==> Mentions(rejected, uid)))
  {
    var checked := rejected + [Check(u, true, now)];
    var events := checked + AlertIf(alerted, u, now, lag);
    assert h + checked == (h + rejected) + [Check(u, true, now)];
    ReplayOneMore(h + rejected, Check(u, true, now), uid);
    MentionsOneMore(rejected, Check(u, true, now), uid);
    if alerted {
      assert h + events == (h + checked) + [Alert(u, now, lag)];
      ReplayOneMore(h + checked, Alert(u, now, lag), uid);
      forall e | e in checked ensures e in events { }
    } else {
      assert events == checked;
    }
  }

  // ---- The alerter ---------------------------------------------------------------------------

  predicate Watched(o: Order) {
    !o.orderClass.Liquidity? && !o.partiallyFillable
  }

  /** The new set of open orders; orders that were open before keep their time. */
  function Carry(open: OpenOrders, fetched: seq<Order>): (r: OpenOrders)
    ensures forall uid :: uid in r <==> exists o :: o in fetched && o.uid == uid && o.orderClass != Liquidity && !o.partiallyFillable
    ensures forall uid :: uid in r ==> r[uid].0 in fetched && r[uid].0.orderClass != Liquidity && !r[uid].0.partiallyFillable
    ensures forall uid :: uid in r ==> r[uid].0.uid == uid && r[uid].1 == if uid in open then open[uid].1 else None
  {
    if fetched == [] then map[]
    else
      var n := |fetched| - 1;
      var o := fetched[n];
      assert fetched == fetched[..n] + [o];
      var before := Carry(open, fetched[..n]);
      if Watched(o) then before[o.uid := (o, if o.uid in open then open[o.uid].1 else None)] else before
  }

  /** Market orders are asked before limit orders, and those before liquidity orders. */
  predicate MayPrecede(a: Class, b: Class) {
    (b == Market ==> a == Market) && (b == Limit ==> a != Liquidity)
  }

  function Rank(c: Class): nat {
    match c case Market => 0 case Limit => 1 case Liquidity => 2
  }

  /** The sort puts the order before all others. */
  predicate ComesFirst(rest: set<Order>, o: Order) {
    forall x | x in rest :: Rank(o.orderClass) <= Rank(x.orderClass)
  }

  lemma SomeComesFirst(rest: set<Order>)
    requires rest != {}
    ensures exists o :: o in rest && ComesFirst(rest, o)
  {
    var least := LeastBy(rest, (x: Order) => Rank(x.orderClass));
    assert ComesFirst(rest, least);
  }

  /** The orders outside `rest` were asked about, in the order of their classes and before the others. */
  ghost predicate AskedInOrder(closed: set<Order>, asked: seq<Order>, rest: set<Order>) {
    && rest <= closed
    && (forall o :: o in asked <==> o in closed && o !in rest)
    && (forall i, j :: 0 <= i < j < |asked| ==> MayPrecede(asked[i].orderClass, asked[j].orderClass))
    && forall o, x :: o in asked && x in rest ==> MayPrecede(o.orderClass, x.orderClass)
  }

  lemma AskedOneMore(closed: set<Order>, asked: seq<Order>, rest: set<Order>, o: Order)
    requires AskedInOrder(closed, asked, rest) && o in rest && ComesFirst(rest, o)
    ensures AskedInOrder(closed, asked + [o], rest - {o})
  {
    var r := asked + [o];
    forall i, j | 0 <= i < j < |r| ensures MayPrecede(r[i].orderClass, r[j].orderClass) {
      if j == |asked| { assert asked[i] in asked; }
    }
  }

  class Alerter {
    const config: AlertConfig
    var clock: Instant
    var lastObservedTrade: Instant
    var lastAlert: Option<Instant>
    var openOrders: OpenOrders
    var noTradesButMatchableOrder: bool
    ghost var history: seq<Event>

    ghost predicate Valid()
      reads this
    {
      && TimesJustified(history, openOrders) && TimesComplete(history, openOrders) && Replayed(history, openOrders)
      && (forall uid :: uid in openOrders && openOrders[uid].1.Some? ==> openOrders[uid].1.value <= clock)
      && (forall uid :: uid in openOrders ==> openOrders[uid].0.uid == uid)
      && AlertsBacked(history, config) && AlertsSpaced(history, config) && IsLastAlert(history, lastAlert)
      && lastObservedTrade <= clock && (lastAlert.Some? ==> lastAlert.value <= clock)
    }

    constructor (config: AlertConfig, now: Instant)
      ensures Valid() && this.config == config && openOrders == map[] && history == [] && lastAlert == None
    {
      this.config := config;
      clock := now;
      lastObservedTrade := now;
      lastAlert := None;
      openOrders := map[];
      noTradesButMatchableOrder := false;
      history := [];
    }

    /** Reading the monotonic clock. */
    method Now() returns (t: Instant)
      modifies this`clock
      ensures t == clock >= old(clock)
    {
      t :| t >= clock;
      clock := t;
    }

    /** Looks for a fulfilled order among those that closed, market orders first. `status` is the API's answer. */
    method FindFulfilled(closed: set<Order>, status: Uid -> Option<bool>) returns (ok: bool, ghost asked: seq<Order>)
      requires lastObservedTrade <= clock
      modifies this`clock, this`lastObservedTrade
      ensures old(clock) <= clock && lastObservedTrade <= clock
      ensures lastObservedTrade == old(lastObservedTrade) || old(clock) <= lastObservedTrade
      ensures !ok ==> lastObservedTrade == old(lastObservedTrade) && exists o :: o in closed && status(o.uid) == None
      ensures ok && (exists o :: o in closed && status(o.uid) == Some(true)) ==> lastObservedTrade == clock
      ensures lastObservedTrade != old(lastObservedTrade) ==> exists o :: o in closed && status(o.uid) == Some(true)
      ensures exists rest :: AskedInOrder(closed, asked, rest) &&
                (rest != {} ==> asked != [] && status(asked[|asked| - 1].uid) != Some(false))
    {
      var rest := closed;
      asked := [];
      while rest != {}
        invariant rest <= closed
        invariant clock == old(clock) && lastObservedTrade == old(lastObservedTrade)
        invariant forall o :: o in closed && o !in rest ==> status(o.uid) == Some(false)
        invariant AskedInOrder(closed, asked, rest)
        decreases |rest|
      {
        SomeComesFirst(rest);
        var o :| o in rest && ComesFirst(rest, o);
        AskedOneMore(closed, asked, rest, o);
        asked := asked + [o];
        match status(o.uid) {
          case None =>
            assert AskedInOrder(closed, asked, rest - {o});
            return false, asked;
          case Some(fulfilled) =>
            if fulfilled {
              assert AskedInOrder(closed, asked, rest - {o});
              lastObservedTrade := Now();
              return true, asked;
            }
        }
        rest := rest - {o};
      }
      assert AskedInOrder(closed, asked, rest);
      return true, asked;
    }

    /** Swaps in the fetched orders and returns those that are no longer open. */
    method TakeSnapshot(fetched: seq<Order>) returns (closed: set<Order>)
      requires Valid()
      modifies this`openOrders, this`history
      ensures Valid() && openOrders == Carry(old(openOrders), fetched)
      ensures history == old(history) + [Snapshot(openOrders.Keys)]
      ensures forall o :: o in closed ==> o.uid in old(openOrders) && o.uid !in openOrders
      ensures forall uid :: uid in old(openOrders) && uid !in openOrders ==>
                old(openOrders)[uid].0 in closed && old(openOrders)[uid].0.uid == uid
    {
      var orders := Carry(openOrders, fetched);
      ghost var e := Snapshot(orders.Keys);
      forall uid | uid in orders && orders[uid].1.Some? ensures SolvableSince(history + [e], uid, orders[uid].1.value) {
        StillSolvable(history, uid, orders[uid].1.value, e);
      }
      OtherEvent(history, e, config, lastAlert);
      CompleteKept(history, e, openOrders, orders);
      ReplayedOneMore(history, e, openOrders, orders);
      var before := openOrders;
      openOrders, history := orders, history + [e];
      closed := set uid | uid in before && uid !in orders :: before[uid].0;
    }

    method UpdateOpenOrders(fetched: Option<seq<Order>>, status: Uid -> Option<bool>) returns (ok: bool)
      requires Valid()
      modifies this
      ensures Valid() && old(clock) <= clock && lastAlert == old(lastAlert)
      ensures fetched.None? ==> !ok && openOrders == old(openOrders) && history == old(history) && lastObservedTrade == old(lastObservedTrade)
      ensures fetched.Some? ==> openOrders == Carry(old(openOrders), fetched.value)
      ensures fetched.Some? && !ok ==> exists uid :: uid in old(openOrders) && uid !in openOrders && status(uid) == None
      ensures fetched.Some? ==> history == old(history) + [Snapshot(openOrders.Keys)]
      ensures lastObservedTrade == old(lastObservedTrade) || old(clock) <= lastObservedTrade
      ensures ok && (exists uid :: uid in old(openOrders) && uid !in openOrders && status(uid) == Some(true)) ==> lastObservedTrade == clock
      ensures lastObservedTrade != old(lastObservedTrade) ==>
                exists uid :: uid in old(openOrders) && uid !in openOrders && status(uid) == Some(true)
    {
      if fetched == None {
        return false;
      }
      var closed := TakeSnapshot(fetched.value);
      ghost var asked;
      ok, asked := FindFulfilled(closed, status);
    }

    /** The state of the alerter agrees with the outcome of the iteration. */
    ghost predicate Concludes(r: Outcome, settle: Uid -> Option<bool>, lag: nat, lastBefore: Option<Instant>)
      reads this
    {
      && Reports(r, openOrders, noTradesButMatchableOrder, settle, config, lastBefore, lag)
      && lastAlert == (if r.Solvable? && r.alerted then Some(r.now) else lastBefore)
      && (r.Solvable? && r.alerted ==> history != [] && history[|history| - 1] == Alert(r.uid, r.now, lag))
    }

    /** From position `from` on, the history is what this iteration recorded after its snapshot. */
    ghost predicate Recorded(from: nat, r: Outcome, settle: Uid -> Option<bool>, low: Instant, lag: nat)
      reads this
    {
      from <= |history| && Records(history[from..], r, openOrders.Keys, settle, low, clock, lag)
    }

    /** Some call to an API failed: the order list, the status of a closed order, or the quote for an open one. */
    ghost predicate Unanswered(fetched: Option<seq<Order>>, status: Uid -> Option<bool>, settle: Uid -> Option<bool>,
                               before: OpenOrders)
      reads this
    {
      || fetched.None?
      || (exists uid :: uid in before && uid !in openOrders && status(uid) == None)
      || (exists uid :: uid in openOrders && settle(uid) == None)
    }

    /** One iteration of the main loop; the answers of the APIs are parameters. */
    method Update(fetched: Option<seq<Order>>, status: Uid -> Option<bool>, settle: Uid -> Option<bool>, lag: nat)
      returns (r: Outcome)
      requires Valid()
      modifies this
      ensures Valid() && old(history) <= history && old(clock) <= clock
      ensures fetched.Some? ==> openOrders.Keys == Carry(old(openOrders), fetched.value).Keys
      ensures r.Failed? ==> Unanswered(fetched, status, settle, old(openOrders))
      ensures fetched.None? ==> r.Failed?
      ensures r.Quiet? ==> clock - lastObservedTrade <= config.timeWithoutTrade
      ensures !r.Failed? ==> Concludes(r, settle, lag, old(lastAlert))
      ensures r.Solvable? ==> r.since == UnwrapOr(StoredTime(old(openOrders), r.uid), r.now)
      ensures r.Solvable? ==> forall t :: SolvableSince(old(history), r.uid, t) ==> r.since <= t
      ensures fetched.None? ==> history == old(history) && openOrders == old(openOrders)
      ensures fetched.Some? ==> old(history) + [Snapshot(openOrders.Keys)] <= history
      ensures fetched.Some? ==> Recorded(|old(history)| + 1, r, settle, old(clock), lag)
      ensures r.Failed? ==> lastAlert == old(lastAlert)
      ensures r.Solvable? ==> r.now - lastObservedTrade > config.timeWithoutTrade
      ensures r.Unsolvable? ==> clock - lastObservedTrade > config.timeWithoutTrade
    {
      ghost var h, before := history, openOrders;
      var ok := UpdateOpenOrders(fetched, status);
      if !ok {
        if fetched.Some? { NothingRecorded(history[|old(history)| + 1..], openOrders.Keys, settle, old(clock), clock, lag); }
        return Failed;
      }
      ghost var carried := openOrders;
      r := CheckUnlessTraded(settle, lag, old(clock));
      if r.Solvable? {
        assert StoredTime(carried, r.uid) == StoredTime(before, r.uid);
        NothingEarlier(h, before, r.uid, r.since);
      }
    }

    /** The second half of an iteration: after a recent trade all times are dropped, otherwise the orders are checked. */
    method CheckUnlessTraded(settle: Uid -> Option<bool>, lag: nat, ghost first: Instant) returns (r: Outcome)
      requires Valid() && first <= clock
      modifies this
      ensures Valid() && old(history) <= history && old(clock) <= clock
      ensures openOrders.Keys == old(openOrders).Keys && lastObservedTrade == old(lastObservedTrade)
      ensures Concludes(r, settle, lag, old(lastAlert))
      ensures r.Quiet? ==> clock - lastObservedTrade <= config.timeWithoutTrade
      ensures r.Solvable? ==> r.now - lastObservedTrade > config.timeWithoutTrade
      ensures r.Unsolvable? ==> clock - lastObservedTrade > config.timeWithoutTrade
      ensures r.Solvable? ==> r.since == UnwrapOr(StoredTime(old(openOrders), r.uid), r.now)
      ensures Recorded(|old(history)|, r, settle, first, lag)
    {
      var started := Now();
      if started - lastObservedTrade <= config.timeWithoutTrade {
        ForgetTimes();
        return Quiet;
      }
      r := CheckOrders(settle, lag);
      RecordsLater(history[|old(history)|..], r, openOrders.Keys, settle, first, started, clock, lag);
    }

    method ForgetTimes()
      requires Valid()
      modifies this`openOrders, this`history, this`noTradesButMatchableOrder
      ensures Valid() && history == old(history) + [RecentTrade] && !noTradesButMatchableOrder
      ensures openOrders == map uid | uid in old(openOrders) :: (old(openOrders)[uid].0, None)
    {
      noTradesButMatchableOrder := false;
      openOrders := map uid | uid in openOrders :: (openOrders[uid].0, None);
      OtherEvent(history, RecentTrade, config, lastAlert);
      CompleteKept(history, RecentTrade, old(openOrders), openOrders);
      ReplayedOneMore(history, RecentTrade, old(openOrders), openOrders);
      history := history + [RecentTrade];
    }

    /** One order of the loop; `None` when the loop goes on. */
    method CheckOrder(uid: Uid, ghost rest: set<Uid>, settle: Uid -> Option<bool>, lag: nat) returns (r: Option<Outcome>)
      requires Valid() && uid in rest && rest <= openOrders.Keys && Rejected(openOrders, rest, settle)
      modifies this
      ensures Valid() && old(history) <= history && old(clock) <= clock
      ensures lastObservedTrade == old(lastObservedTrade)
      ensures openOrders.Keys == old(openOrders).Keys
      ensures forall u :: u in openOrders && u != uid ==> openOrders[u] == old(openOrders)[u]
      ensures r.None? ==> Rejected(openOrders, rest - {uid}, settle) && lastAlert == old(lastAlert)
      ensures r.Some? && r.value.Solvable? ==> r.value.uid == uid && r.value.since == UnwrapOr(StoredTime(old(openOrders), uid), r.value.now)
      ensures r.Some? ==> !r.value.Quiet? && !r.value.Unsolvable? && Concludes(r.value, settle, lag, old(lastAlert))
      ensures r.Some? && r.value.Solvable? ==> r.value.now == clock
      ensures r.None? ==> settle(uid) == Some(false) && history == old(history) + [Check(uid, false, clock)]
      ensures r == Some(Failed) ==> history == old(history) && openOrders == old(openOrders)
      ensures r.Some? && r.value.Solvable? ==>
                history == old(history) + [Check(uid, true, clock)] + AlertIf(r.value.alerted, uid, clock, lag)
    {
      if settle(uid) == None {
        return Some(Failed);
      }
      var now := Now();
      if settle(uid).value {
        var since, alerted := OnSolvable(uid, now, lag);
        return Some(Solvable(uid, since, now, alerted));
      }
      RejectedOneMore(openOrders, rest, settle, uid);
      RecordUnsolvable(uid, now);
      return None;
    }

    /** The same, with what the loop has done since its start. */
    method CheckNext(uid: Uid, ghost rest: set<Uid>, settle: Uid -> Option<bool>, lag: nat,
                     ghost h: seq<Event>, ghost before: OpenOrders, ghost start: Instant)
      returns (r: Option<Outcome>)
      requires Valid() && uid in rest && Progress(before, openOrders, rest, settle)
      requires Scanned(h, history, openOrders.Keys, rest, settle, start, clock)
      modifies this
      ensures Valid() && h <= history && start <= clock
      ensures lastObservedTrade == old(lastObservedTrade) && openOrders.Keys == before.Keys
      ensures r.None? ==> lastAlert == old(lastAlert) && Progress(before, openOrders, rest - {uid}, settle)
      ensures r.None? ==> Scanned(h, history, openOrders.Keys, rest - {uid}, settle, start, clock)
      ensures r.Some? ==> !r.value.Quiet? && !r.value.Unsolvable? && Concludes(r.value, settle, lag, old(lastAlert))
      ensures r.Some? ==> Recorded(|h|, r.value, settle, start, lag)
      ensures r.Some? && r.value.Solvable? ==>
                r.value.now == clock && r.value.since == UnwrapOr(StoredTime(before, r.value.uid), r.value.now)
    {
      r := CheckOrder(uid, rest, settle, lag);
      if r.Some? {
        RecordsDecided(h, old(history), history, r.value, openOrders.Keys, rest, settle, start, old(clock), clock, lag);
      } else {
        ProgressOneMore(before, old(openOrders), openOrders, rest, settle, uid);
        ScannedOneMore(h, old(history), openOrders.Keys, rest, settle, start, old(clock), uid, clock);
      }
    }

    method CheckOrders(settle: Uid -> Option<bool>, lag: nat) returns (r: Outcome)
      requires Valid() && clock - lastObservedTrade > config.timeWithoutTrade
      modifies this
      ensures Valid() && old(history) <= history && old(clock) <= clock
      ensures lastObservedTrade == old(lastObservedTrade)
      ensures !r.Quiet? && Concludes(r, settle, lag, old(lastAlert))
      ensures openOrders.Keys == old(openOrders).Keys
      ensures r.Solvable? ==> r.now >= old(clock) && r.since == UnwrapOr(StoredTime(old(openOrders), r.uid), r.now)
      ensures Recorded(|old(history)|, r, settle, old(clock), lag)
    {
      var rest := openOrders.Keys;
      LoopStarts(openOrders, history, clock, settle);
      while rest != {}
        invariant Valid() && Progress(old(openOrders), openOrders, rest, settle)
        invariant lastObservedTrade == old(lastObservedTrade) && lastAlert == old(lastAlert)
        invariant Scanned(old(history), history, openOrders.Keys, rest, settle, old(clock), clock)
        decreases |rest|
      {
        var uid :| uid in rest;
        var decided := CheckNext(uid, rest, settle, lag, old(history), old(openOrders), old(clock));
        if decided.Some? {
          return decided.value;
        }
        rest := rest - {uid};
      }
      RecordsAllRejected(old(history), history, openOrders.Keys, settle, old(clock), clock, lag);
      r := AllUnsolvable(settle, lag);
    }

    method AllUnsolvable(settle: Uid -> Option<bool>, ghost lag: nat) returns (r: Outcome)
      requires Valid() && Rejected(openOrders, {}, settle)
      modifies this`noTradesButMatchableOrder
      ensures Valid() && r == Unsolvable && Concludes(r, settle, lag, lastAlert)
    {
      noTradesButMatchableOrder := false;
      r := Unsolvable;
    }

    method OnSolvable(uid: Uid, now: Instant, lag: nat) returns (since: Instant, alerted: bool)
      requires Valid() && uid in openOrders && now == clock
      modifies this`openOrders, this`history, this`lastAlert, this`noTradesButMatchableOrder
      ensures Valid() && old(history) <= history
      ensures since == UnwrapOr(old(openOrders[uid].1), now)
      ensures openOrders == old(openOrders)[uid := (old(openOrders[uid].0), Some(since))]
      ensures alerted <==> Due(config, since, now, lag, old(lastAlert))
      ensures lastAlert == if alerted then Some(now) else old(lastAlert)
      ensures history == old(history) + [Check(uid, true, now)] + AlertIf(alerted, uid, now, lag)
      ensures noTradesButMatchableOrder == if now - since > config.minOrderSolvableTime then true else old(noTradesButMatchableOrder)
    {
      since := RecordSolvable(uid, now);
      alerted := false;
      if now - since > config.minOrderSolvableTime {
        if lastAlert == None || now + lag - lastAlert.value >= config.minAlertInterval {
          RaiseAlert(uid, now, lag, since);
          alerted := true;
        }
        noTradesButMatchableOrder := true;
      }
    }

    /** `get_or_insert`: a time already stored stays. */
    method RecordSolvable(uid: Uid, now: Instant) returns (since: Instant)
      requires Valid() && uid in openOrders && now == clock
      modifies this`openOrders, this`history
      ensures Valid() && history == old(history) + [Check(uid, true, now)]
      ensures since == UnwrapOr(old(openOrders[uid].1), now)
      ensures openOrders == old(openOrders)[uid := (old(openOrders[uid].0), Some(since))]
      ensures SolvableSince(history, uid, since)
    {
      ghost var e := Check(uid, true, now);
      SolvableNow(history, uid, now);
      forall u | u in openOrders && openOrders[u].1.Some? ensures SolvableSince(history + [e], u, openOrders[u].1.value) {
        StillSolvable(history, u, openOrders[u].1.value, e);
      }
      OtherEvent(history, e, config, lastAlert);
      since := UnwrapOr(openOrders[uid].1, now);
      CompleteAfterCheck(history, uid, true, now, openOrders, openOrders[uid := (openOrders[uid].0, Some(since))]);
      ReplayedOneMore(history, e, openOrders, openOrders[uid := (openOrders[uid].0, Some(since))]);
      openOrders := openOrders[uid := (openOrders[uid].0, Some(since))];
      history := history + [e];
    }

    method RecordUnsolvable(uid: Uid, now: Instant)
      requires Valid() && uid in openOrders
      modifies this`openOrders, this`history
      ensures Valid() && history == old(history) + [Check(uid, false, now)]
      ensures openOrders == old(openOrders)[uid := (old(openOrders[uid].0), None)]
    {
      ghost var e := Check(uid, false, now);
      forall u | u in openOrders && u != uid && openOrders[u].1.Some? ensures SolvableSince(history + [e], u, openOrders[u].1.value) {
        StillSolvable(history, u, openOrders[u].1.value, e);
      }
      OtherEvent(history, e, config, lastAlert);
      CompleteAfterCheck(history, uid, false, now, openOrders, openOrders[uid := (openOrders[uid].0, None)]);
      ReplayedOneMore(history, e, openOrders, openOrders[uid := (openOrders[uid].0, None)]);
      openOrders := openOrders[uid := (openOrders[uid].0, None)];
      history := history + [e];
    }

    method RaiseAlert(uid: Uid, now: Instant, lag: nat, ghost since: Instant)
      requires Valid() && now == clock && SolvableSince(history, uid, since) && now - since > config.minOrderSolvableTime
      requires lastAlert.Some? ==> now + lag - lastAlert.value >= config.minAlertInterval
      modifies this`lastAlert, this`history
      ensures Valid() && lastAlert == Some(now) && history == old(history) + [Alert(uid, now, lag)]
    {
      ghost var e := Alert(uid, now, lag);
      forall u | u in openOrders && openOrders[u].1.Some? ensures SolvableSince(history + [e], u, openOrders[u].1.value) {
        StillSolvable(history, u, openOrders[u].1.value, e);
      }
      AlertEvent(history, uid, now, lag, since, config, lastAlert);
      CompleteKept(history, e, openOrders, openOrders);
      ReplayedOneMore(history, e, openOrders, openOrders);
      lastAlert, history := Some(now), history + [e];
    }
  }

  /**
   * Every alert an alerter has raised was earned: more than the minimum time before, a check saw its order settleable,
   * and up to the alert every snapshot had it, every check of it succeeded and no trade was recent.
   */
  lemma AlertMeansMatchable(a: Alerter, p: nat)
    requires a.Valid() && p < |a.history| && a.history[p].Alert?
    ensures exists i, t :: 0 <= i < p && a.history[i] == Check(a.history[p].alerted, true, t) &&
              a.history[p].raisedAt - t > a.config.minOrderSolvableTime &&
              forall j :: i < j < p ==> Supports(a.history[j], a.history[p].alerted)
    ensures forall q :: p < q < |a.history| && a.history[q].Alert? ==>
              a.history[q].raisedAt + a.history[q].lag - a.history[p].raisedAt >= a.config.minAlertInterval
  {
    var h := a.history;
    assert Backed(h[..p], a.config, h[p].alerted, h[p].raisedAt);
    var t :| h[p].raisedAt - t > a.config.minOrderSolvableTime && SolvableSince(h[..p], h[p].alerted, t);
    var i :| 0 <= i < p && h[..p][i] == Check(h[p].alerted, true, t) && Unbroken(h[..p], h[p].alerted, i + 1);
    assert h[i] == Check(h[p].alerted, true, t);
    forall j | i < j < p ensures Supports(h[j], h[p].alerted) {
      assert h[..p][j] == h[j];
    }
  }

  /** Conversely no span is overlooked: an order matchable for more than the minimum is alerted when it is checked again. */
  lemma MatchableIsDue(a: Alerter, uid: Uid, t: Instant, now: Instant, lag: nat)
    requires a.Valid() && SolvableSince(a.history, uid, t) && now - t > a.config.minOrderSolvableTime
    requires a.lastAlert.Some? ==> now + lag - a.lastAlert.value >= a.config.minAlertInterval
    ensures uid in a.openOrders && Due(a.config, UnwrapOr(StoredTime(a.openOrders, uid), now), now, lag, a.lastAlert)
  {
    assert SolvableSince(a.history, uid, t);
  }
}
