/**
 USDFC rail settlement: the paginated discovery of rails, the local mirror of what was
 discovered, one settlement cycle, and how long a rail can go unsettled over many cycles.
 */
module Settlement {
  import opened Text

  datatype Result<+T> = Ok(value: T) | Err(error: string)

  const PAGE_SIZE: nat := 200
  const MAX_SETTLES: nat := 16
  const EPOCHS_IN_DAY := 2880
  const SETTLE_INTERVAL := 2880 * 7

  function Min(a: int, b: int): int {
    if a < b then a else b
  }

  // ---- Discovery ----------------------------------------------------------------------

  /** One row of getRailsForPayeeAndToken. */
  datatype Rail = Rail(id: int, terminated: bool, endEpoch: int)

  datatype Page = Page(results: seq<Rail>, nextOffset: nat, total: nat)

  /** What the contract answers to the k-th call, asked at an offset: any reply whatever. */
  type Contract = (nat, nat) -> Result<Page>

  function OffsetAt(reply: Contract, k: nat): nat {
    if k == 0 then 0
    else
      match reply(k - 1, OffsetAt(reply, k - 1))
      case Ok(page) => page.nextOffset
      case Err(_) => 0
  }

  /** The k-th reply, when every offset is the one the reply before it named. */
  function PageAt(reply: Contract, k: nat): Result<Page> {
    reply(k, OffsetAt(reply, k))
  }

  /** All rails of the first k replies. */
  function Gathered(reply: Contract, k: nat): seq<Rail> {
    if k == 0 then []
    else
      Gathered(reply, k - 1) + match PageAt(reply, k - 1)
                               case Ok(page) => page.results
                               case Err(_) => []
  }

  /** Another page is fetched after the k-th. */
  predicate Continues(reply: Contract, k: nat) {
    && PageAt(reply, k).Ok?
    && var page := PageAt(reply, k).value;
    && page.nextOffset < page.total && page.nextOffset != 0 && page.results != []
    && |Gathered(reply, k + 1)| <= PAGE_SIZE * 4
  }

  /** How many pages a discovery fetches. */
  ghost predicate Fetches(reply: Contract, n: nat) {
    && n >= 1 && !Continues(reply, n - 1)
    && forall k | 0 <= k < n - 1 :: Continues(reply, k)
  }

  /** discover: whatever the contract answers, at most 801 pages are fetched. */
  method Discover(reply: Contract) returns (out: Result<seq<Rail>>, fetches: nat)
    ensures fetches <= 801 && Fetches(reply, fetches)
    ensures match PageAt(reply, fetches - 1)
            case Ok(_) => out == Ok(Gathered(reply, fetches))
            case Err(e) => out == Err(e)
  {
    var rails: seq<Rail>, offset: nat := [], 0;
    fetches := 0;
    while true
      invariant fetches <= |rails| <= PAGE_SIZE * 4
      invariant offset == OffsetAt(reply, fetches) && rails == Gathered(reply, fetches)
      invariant forall k | 0 <= k < fetches :: Continues(reply, k)
      decreases PAGE_SIZE * 4 - |rails|
    {
      var answer := reply(fetches, offset);
      fetches := fetches + 1;
      if answer.Err? {
        return Err(answer.error), fetches;
      }
      var page := answer.value;
      rails := rails + page.results;
      if page.nextOffset >= page.total || page.nextOffset == 0 || page.results == [] {
        break;
      }
      offset := page.nextOffset;
      if |rails| > PAGE_SIZE * 4 {
        break;
      }
    }
    out := Ok(rails);
  }

  /** A contract that pages through `all` in order, ending with nextOffset equal to the total or to 0. */
  ghost predicate Honest(reply: Contract, all: seq<Rail>) {
    forall k: nat, offset: nat | offset <= |all| ::
      var end := Min(offset + PAGE_SIZE, |all|);
      && reply(k, offset).Ok?
      && var page := reply(k, offset).value;
      && page.results == all[offset..end] && page.total == |all|
      && if end < |all| then page.nextOffset == end else page.nextOffset == |all| || page.nextOffset == 0
  }

  lemma HonestPage(reply: Contract, all: seq<Rail>, k: nat, offset: nat)
    requires Honest(reply, all) && offset == OffsetAt(reply, k) <= |all|
             && Gathered(reply, k) == all[..offset] && Continues(reply, k)
    ensures offset + PAGE_SIZE < |all| && offset + PAGE_SIZE <= PAGE_SIZE * 4
    ensures OffsetAt(reply, k + 1) == offset + PAGE_SIZE && Gathered(reply, k + 1) == all[..offset + PAGE_SIZE]
  {
    var end := Min(offset + PAGE_SIZE, |all|);
    assert reply(k, offset).Ok?;
    assert all[..end] == all[..offset] + all[offset..end];
  }

  lemma {:induction false} HonestPages(reply: Contract, all: seq<Rail>, k: nat)
    requires Honest(reply, all) && forall j | 0 <= j < k :: Continues(reply, j)
    ensures k <= 4 && PAGE_SIZE * k <= |all| && (k > 0 ==> PAGE_SIZE * k < |all|)
    ensures OffsetAt(reply, k) == PAGE_SIZE * k && Gathered(reply, k) == all[..PAGE_SIZE * k]
  {
    if k > 0 {
      HonestPages(reply, all, k - 1);
      assert Continues(reply, k - 1);
      HonestPage(reply, all, k - 1, PAGE_SIZE * (k - 1));
    }
  }

  lemma HonestGathering(reply: Contract, all: seq<Rail>, fetches: nat)
    requires Honest(reply, all) && Fetches(reply, fetches)
    ensures PageAt(reply, fetches - 1).Ok?
    ensures Gathered(reply, fetches) == all[..Min(|all|, PAGE_SIZE * 5)]
    ensures Gathered(reply, fetches) == all <==> |all| <= PAGE_SIZE * 5
  {
    var k := fetches - 1;
    HonestPages(reply, all, k);
    var offset := PAGE_SIZE * k;
    var end := Min(offset + PAGE_SIZE, |all|);
    assert reply(k, offset).Ok?;
    assert all[..end] == all[..offset] + all[offset..end];
    assert Gathered(reply, fetches) == all[..end];
  }

  /** Against an honest contract, discovery returns the first thousand rails in order: five pages, not four. */
  lemma HonestDiscovery(reply: Contract, all: seq<Rail>, fetches: nat)
    requires Honest(reply, all) && Fetches(reply, fetches)
    ensures PageAt(reply, fetches - 1).Ok?
    ensures Gathered(reply, fetches) == all[..Min(|all|, 1000)]
    ensures Gathered(reply, fetches) == all <==> |all| <= 1000
  {
    HonestGathering(reply, all, fetches);
  }

  // ---- Eligibility --------------------------------------------------------------------

  /** How many epochs must accrue before a rail is settled; `minEpochs` is the environment override. */
  function Interval(lockup: int, minEpochs: Option<int>): int {
    var asked := if minEpochs.Some? && minEpochs.value > 0 then minEpochs.value else SETTLE_INTERVAL;
    var graced := lockup - EPOCHS_IN_DAY;
    if graced > 0 && graced < asked then graced else asked
  }

  predicate Eligible(lockup: int, settledUpTo: int, current: int, minEpochs: Option<int>) {
    lockup - EPOCHS_IN_DAY <= 0 || settledUpTo + Interval(lockup, minEpochs) < current
  }

  /**
   Due for settlement: short lockups always, others once the override or a week, or lockup less a
   day, has accrued.
   */
  lemma EligibleIff(lockup: int, settledUpTo: int, current: int, minEpochs: Option<int>, wait: int)
    requires wait == match minEpochs case Some(m) => (if m > 0 then m else 7 * 2880) case None => 7 * 2880
    ensures Eligible(lockup, settledUpTo, current, minEpochs) <==>
              lockup <= 2880 || current - settledUpTo > wait || current - settledUpTo > lockup - 2880
  {}

  // ---- One rail over many cycles ------------------------------------------------------

  /** A cycle that has the rail among its candidates. */
  datatype Poll = Poll(epoch: int, minEpochs: Option<int>)

  predicate Settles(lockup: int, settled: int, poll: Poll) {
    Eligible(lockup, settled, poll.epoch, poll.minEpochs)
  }

  /** settledUpTo before the k-th poll, when every send lands before the next one. */
  function SettledAt(lockup: int, settled: int, polls: seq<Poll>, k: nat): int
    requires k <= |polls|
  {
    if k == 0 then settled
    else
      var s := SettledAt(lockup, settled, polls, k - 1);
      if Settles(lockup, s, polls[k - 1]) then polls[k - 1].epoch else s
  }

  /** The spans of epochs that the first k polls settle. */
  function Spans(lockup: int, settled: int, polls: seq<Poll>, k: nat): seq<(int, int)>
    requires k <= |polls|
  {
    if k == 0 then []
    else
      var s := SettledAt(lockup, settled, polls, k - 1);
      Spans(lockup, settled, polls, k - 1) + if Settles(lockup, s, polls[k - 1]) then [(s, polls[k - 1].epoch)] else []
  }

  function Total(spans: seq<(int, int)>): int {
    if spans == [] then 0 else Total(spans[..|spans| - 1]) + spans[|spans| - 1].1 - spans[|spans| - 1].0
  }

  /** Polls follow each other at most `gap` epochs apart. */
  predicate Paced(polls: seq<Poll>, gap: nat) {
    forall i | 0 <= i < |polls| - 1 :: polls[i].epoch <= polls[i + 1].epoch <= polls[i].epoch + gap
  }

  /** The most a rail can accrue between settlements, whatever the override says at each poll. */
  function Bound(lockup: int, gap: nat): int {
    if lockup > EPOCHS_IN_DAY then lockup - EPOCHS_IN_DAY + gap else gap
  }

  /** At every poll, so at every settlement, no more has accrued than the bound. */
  lemma {:induction false} AccruedWithinBound(lockup: int, settled: int, polls: seq<Poll>, gap: nat, most: int, k: nat)
    requires Paced(polls, gap) && k < |polls| && most >= Bound(lockup, gap)
    requires settled <= polls[0].epoch <= settled + most
    ensures var s := SettledAt(lockup, settled, polls, k); s <= polls[k].epoch <= s + most
  {
    if k > 0 {
      AccruedWithinBound(lockup, settled, polls, gap, most, k - 1);
      assert polls[k - 1 + 1].epoch <= polls[k - 1].epoch + gap;
    }
  }

  /** Spans that lead from one epoch to another, each starting where the one before it ended. */
  predicate Chain(spans: seq<(int, int)>, start: int, end: int) {
    if spans == [] then start == end
    else
      var last := spans[|spans| - 1];
      last.0 <= last.1 == end && Chain(spans[..|spans| - 1], start, last.0)
  }

  lemma {:induction false} ChainTiles(spans: seq<(int, int)>, start: int, end: int)
    requires Chain(spans, start, end)
    ensures forall i, j | 0 <= i < j < |spans| :: spans[i].1 <= spans[j].0
    ensures forall i | 0 <= i < |spans| :: start <= spans[i].0 <= spans[i].1 <= end
    ensures Total(spans) == end - start
  {
    if spans != [] {
      var init := spans[..|spans| - 1];
      ChainTiles(init, start, spans[|spans| - 1].0);
      assert forall i | 0 <= i < |init| :: init[i] == spans[i];
    }
  }

  lemma ChainOneMore(spans: seq<(int, int)>, start: int, end: int, next: int)
    requires Chain(spans, start, end) && end <= next
    ensures Chain(spans + [(end, next)], start, next)
  {
    var more := spans + [(end, next)];
    assert more[..|more| - 1] == spans;
  }

  /** Nothing is settled past the poll that settles it. */
  lemma {:induction false} SettledByNow(lockup: int, settled: int, polls: seq<Poll>, gap: nat, k: nat)
    requires Paced(polls, gap) && k < |polls| && settled <= polls[0].epoch
    ensures SettledAt(lockup, settled, polls, k) <= polls[k].epoch
  {
    if k > 0 {
      SettledByNow(lockup, settled, polls, gap, k - 1);
      assert polls[k - 1].epoch <= polls[k - 1 + 1].epoch;
    }
  }

  lemma {:induction false} SpansChain(lockup: int, settled: int, polls: seq<Poll>, gap: nat, k: nat)
    requires Paced(polls, gap) && k <= |polls| && (polls != [] ==> settled <= polls[0].epoch)
    ensures Chain(Spans(lockup, settled, polls, k), settled, SettledAt(lockup, settled, polls, k))
  {
    if k > 0 {
      SpansChain(lockup, settled, polls, gap, k - 1);
      SettledByNow(lockup, settled, polls, gap, k - 1);
      var spans, last := Spans(lockup, settled, polls, k - 1), SettledAt(lockup, settled, polls, k - 1);
      if Settles(lockup, last, polls[k - 1]) {
        ChainOneMore(spans, settled, last, polls[k - 1].epoch);
      } else {
        assert Spans(lockup, settled, polls, k) == spans;
      }
    }
  }

  /** Settled spans never overlap, and they add up to the progress made: no epoch is claimed twice or left out. */
  lemma SpansTile(lockup: int, settled: int, polls: seq<Poll>, gap: nat, k: nat)
    requires Paced(polls, gap) && k <= |polls| && (polls != [] ==> settled <= polls[0].epoch)
    ensures var (spans, last) := (Spans(lockup, settled, polls, k), SettledAt(lockup, settled, polls, k));
            && (forall i, j | 0 <= i < j < |spans| :: spans[i].1 <= spans[j].0)
            && (forall i | 0 <= i < |spans| :: settled <= spans[i].0 <= spans[i].1 <= last)
            && Total(spans) == last - settled
  {
    SpansChain(lockup, settled, polls, gap, k);
    ChainTiles(Spans(lockup, settled, polls, k), settled, SettledAt(lockup, settled, polls, k));
  }

  /** A rail with more than a day of lockup is settled only once more than a week, or lockup less a day, has accrued. */
  lemma {:induction false} SpansAreLong(lockup: int, settled: int, polls: seq<Poll>, k: nat)
    requires k <= |polls| && lockup > EPOCHS_IN_DAY && forall i | 0 <= i < |polls| :: polls[i].minEpochs == None
    ensures forall span | span in Spans(lockup, settled, polls, k) ::
            span.1 - span.0 > Min(7 * EPOCHS_IN_DAY, lockup - EPOCHS_IN_DAY)
  {
    if k > 0 {
      SpansAreLong(lockup, settled, polls, k - 1);
    }
  }

  /** Two polls too far apart, the second of which settles more than the lockup period. */
  lemma SlowPollsPassCap(lockup: nat, gap: nat) returns (polls: seq<Poll>)
    requires gap > Min(lockup, EPOCHS_IN_DAY)
    ensures |polls| == 2 && Paced(polls, gap) && 0 <= polls[0].epoch <= lockup && SettledAt(lockup, 0, polls, 1) == 0
    ensures Settles(lockup, 0, polls[1]) && polls[1].epoch > lockup
  {
    var first := if lockup > EPOCHS_IN_DAY then lockup - EPOCHS_IN_DAY else 0;
    polls := [Poll(first, Some(lockup)), Poll(first + gap, Some(lockup))];
    assert SettledAt(lockup, 0, polls, 0) == 0;
  }

  // ---- The candidate pick -------------------------------------------------------------

  /** The rails not terminated, in order. */
  function Active(rails: seq<Rail>): seq<Rail> {
    if rails == [] then []
    else
      var last := rails[|rails| - 1];
      Active(rails[..|rails| - 1]) + if last.terminated then [] else [last]
  }

  function Candidates(rails: seq<Rail>): seq<Rail> {
    Active(rails)[..Min(|Active(rails)|, MAX_SETTLES)]
  }

  lemma {:induction false} ActivePrefix(rails: seq<Rail>, i: nat)
    requires i <= |rails|
    ensures Active(rails[..i]) <= Active(rails)
  {
    if i == |rails| {
      assert rails[..i] == rails;
    } else {
      ActivePrefix(rails[..|rails| - 1], i);
      assert rails[..|rails| - 1][..i] == rails[..i];
    }
  }

  /** Where the rails not terminated stand. */
  function Positions(rails: seq<Rail>): (r: seq<nat>)
    ensures |r| == |Active(rails)|
  {
    if rails == [] then []
    else
      var n := |rails| - 1;
      Positions(rails[..n]) + if rails[n].terminated then [] else [n]
  }

  lemma {:induction false} PositionsIn(rails: seq<Rail>)
    ensures forall i: nat :: i in Positions(rails) <==> i < |rails| && !rails[i].terminated
  {
    if rails != [] {
      var init := rails[..|rails| - 1];
      PositionsIn(init);
      assert forall i | 0 <= i < |init| :: rails[i] == init[i];
    }
  }

  lemma {:induction false} PositionsGive(rails: seq<Rail>, k: nat)
    requires k < |Positions(rails)|
    ensures Positions(rails)[k] < |rails| && Active(rails)[k] == rails[Positions(rails)[k]]
  {
    var init := rails[..|rails| - 1];
    if k < |Positions(init)| {
      PositionsGive(init, k);
      assert rails[Positions(init)[k]] == init[Positions(init)[k]];
    }
  }

  lemma PositionsAre(rails: seq<Rail>)
    ensures forall k | 0 <= k < |Positions(rails)| ::
              Positions(rails)[k] < |rails| && Active(rails)[k] == rails[Positions(rails)[k]]
    ensures forall i: nat :: i in Positions(rails) <==> i < |rails| && !rails[i].terminated
  {
    PositionsIn(rails);
    forall k | 0 <= k < |Positions(rails)|
      ensures Positions(rails)[k] < |rails| && Active(rails)[k] == rails[Positions(rails)[k]]
    {
      PositionsGive(rails, k);
    }
  }

  lemma {:induction false} PositionOf(rails: seq<Rail>, i: nat)
    requires i < |rails| && !rails[i].terminated
    ensures |Active(rails[..i])| < |Positions(rails)| && Positions(rails)[|Active(rails[..i])|] == i
    ensures forall k | 0 <= k < |Positions(rails)| && Positions(rails)[k] == i :: k == |Active(rails[..i])|
  {
    var init := rails[..|rails| - 1];
    PositionsAre(init);
    if i < |init| {
      PositionOf(init, i);
      assert init[..i] == rails[..i];
    } else {
      assert rails[..i] == init;
      assert forall k | 0 <= k < |Positions(init)| :: Positions(init)[k] in Positions(init);
    }
  }

  /**
   The rail at a position is picked exactly when it is not terminated and fewer than sixteen such
   rails stand before it.
   */
  lemma PickedIff(rails: seq<Rail>, i: nat)
    ensures var picked := Positions(rails)[..|Candidates(rails)|];
            && (i in picked <==> i < |rails| && !rails[i].terminated && |Active(rails[..i])| < 16)
            && forall k | 0 <= k < |picked| :: picked[k] < |rails| && Candidates(rails)[k] == rails[picked[k]]
  {
    PositionsAre(rails);
    var picked := Positions(rails)[..|Candidates(rails)|];
    if i < |rails| && !rails[i].terminated {
      PositionOf(rails, i);
      var k := |Active(rails[..i])|;
      if k < MAX_SETTLES {
        assert picked[k] == i;
      }
    }
    if i in picked {
      assert i in Positions(rails);
    }
  }

  method Pick(rails: seq<Rail>) returns (candidates: seq<Rail>)
    ensures candidates == Candidates(rails)
  {
    candidates := [];
    assert rails[..0] == [];
    for i := 0 to |rails|
      invariant candidates == Active(rails[..i]) && |candidates| < MAX_SETTLES
    {
      assert rails[..i + 1][..i] == rails[..i] && rails[..i + 1][i] == rails[i];
      if !rails[i].terminated {
        candidates := candidates + [rails[i]];
        if |candidates| >= MAX_SETTLES {
          ActivePrefix(rails, i + 1);
          return;
        }
      }
    }
    assert rails[..|rails|] == rails;
  }

  // ---- The local mirror ---------------------------------------------------------------

  /** What getRail adds to a row on first sight. */
  datatype Detail = Detail(payer: string, payee: string, token: string, operator: string, validator: string)

  /** A pdp_payment_rails row. */
  datatype Row = Row(detail: Detail, terminated: bool, endEpoch: int,
                     lastSettled: int, lastTx: Option<string>, lastError: Option<string>)

  function NewRow(detail: Result<Detail>, unknown: Detail, rail: Rail): Row {
    Row(if detail.Ok? then detail.value else unknown, rail.terminated, rail.endEpoch, 0, None, None)
  }

  predicate Seen(rails: seq<Rail>, id: int) {
    exists i | 0 <= i < |rails| :: rails[i].id == id
  }

  /** A row that only took over the terminal state of a rail. */
  predicate Refreshed(row: Row, was: Row, rail: Rail) {
    row == was.(terminated := rail.terminated, endEpoch := rail.endEpoch)
  }

  /**
   The row of the rail at `first` before any refresh: the stored one, or a new one with getRail's
   detail of that moment.
   */
  function Original(before: map<int, Row>, details: nat -> Result<Detail>, unknown: Detail, rails: seq<Rail>,
                    first: nat): Row
    requires first < |rails|
  {
    if rails[first].id in before then before[rails[first].id] else NewRow(details(first), unknown, rails[first])
  }

  predicate IsFirst(rails: seq<Rail>, i: nat)
    requires i < |rails|
  {
    forall j | 0 <= j < i :: rails[j].id != rails[i].id
  }

  predicate IsLast(rails: seq<Rail>, i: nat)
    requires i < |rails|
  {
    forall j | i < j < |rails| :: rails[j].id != rails[i].id
  }

  /**
   The table once the rails were upserted: rows seen for the first time are inserted, every row
   seen has the last terminal state reported, and settlement columns and identities are kept.
   */
  ghost predicate Mirrors(before: map<int, Row>, after: map<int, Row>, rails: seq<Rail>,
                          details: nat -> Result<Detail>, unknown: Detail)
  {
    && (forall id :: id in after <==> id in before || Seen(rails, id))
    && (forall id | id in before && !Seen(rails, id) :: after[id] == before[id])
    && (forall i, j | 0 <= i <= j < |rails| && rails[i].id == rails[j].id && IsFirst(rails, i) && IsLast(rails, j) ::
          rails[j].id in after && Refreshed(after[rails[j].id], Original(before, details, unknown, rails, i), rails[j]))
  }

  /**
   The same column by column: the terminal state is the last one listed; a row that was there keeps the
   rest; a new one has what getRail answered when it was first listed, and has not been settled.
   */
  ghost predicate MirrorTells(before: map<int, Row>, after: map<int, Row>, rails: seq<Rail>,
                              details: nat -> Result<Detail>, unknown: Detail)
  {
    forall i, j | 0 <= i <= j < |rails| && rails[i].id == rails[j].id && IsFirst(rails, i) && IsLast(rails, j) ::
      && var id := rails[j].id;
      && id in after && after[id].terminated == rails[j].terminated && after[id].endEpoch == rails[j].endEpoch
      && (id in before ==>
            && after[id].detail == before[id].detail && after[id].lastSettled == before[id].lastSettled
            && after[id].lastTx == before[id].lastTx && after[id].lastError == before[id].lastError)
      && (id !in before ==>
            && after[id].lastSettled == 0 && after[id].lastTx == None && after[id].lastError == None
            && (details(i).Ok? ==> after[id].detail == details(i).value)
            && (details(i).Err? ==> after[id].detail == unknown))
  }

  lemma MirrorsTell(before: map<int, Row>, after: map<int, Row>, rails: seq<Rail>, details: nat -> Result<Detail>,
                    unknown: Detail)
    requires Mirrors(before, after, rails, details, unknown)
    ensures MirrorTells(before, after, rails, details, unknown)
  {}

  /** What the loop of upsertRails makes of the next rail. */
  function UpsertOne(rows: map<int, Row>, rail: Rail, detail: Result<Detail>, unknown: Detail): map<int, Row> {
    rows[rail.id := if rail.id in rows then rows[rail.id].(terminated := rail.terminated, endEpoch := rail.endEpoch)
                    else NewRow(detail, unknown, rail)]
  }

  lemma {:induction false} FirstAndLast(rails: seq<Rail>, id: int) returns (i: nat, j: nat)
    requires Seen(rails, id)
    ensures i <= j < |rails| && rails[i].id == rails[j].id == id && IsFirst(rails, i) && IsLast(rails, j)
  {
    var n := |rails| - 1;
    var init := rails[..n];
    if Seen(init, id) {
      i, j := FirstAndLast(init, id);
      assert forall k | 0 <= k < n :: init[k] == rails[k];
      if rails[n].id == id {
        j := n;
      }
    } else {
      assert forall k | 0 <= k < n :: init[k] == rails[k];
      i, j := n, n;
    }
  }

  lemma MirrorOne(before: map<int, Row>, cur: map<int, Row>, rails: seq<Rail>, k: nat, details: nat -> Result<Detail>,
                  unknown: Detail)
    requires k < |rails| && Mirrors(before, cur, rails[..k], details, unknown)
    ensures Mirrors(before, UpsertOne(cur, rails[k], details(k), unknown), rails[..k + 1], details, unknown)
  {
    var done, next := rails[..k], rails[..k + 1];
    var after := UpsertOne(cur, rails[k], details(k), unknown);
    assert next[k] == rails[k] && forall i | 0 <= i < k :: next[i] == done[i] == rails[i];
    forall id ensures Seen(next, id) <==> Seen(done, id) || id == rails[k].id {
      if Seen(done, id) {
        var i :| 0 <= i < |done| && done[i].id == id;
        assert next[i].id == id;
      }
      if id == rails[k].id {
        assert next[k].id == id;
      }
    }
    forall i, j | 0 <= i <= j < |next| && next[i].id == next[j].id && IsFirst(next, i) && IsLast(next, j)
      ensures next[j].id in after && Refreshed(after[next[j].id], Original(before, details, unknown, next, i), next[j])
    {
      if j < k {
        assert IsFirst(done, i) && IsLast(done, j);
      } else if i < k {
        var i', j' := FirstAndLast(done, next[k].id);
        assert i' == i;
      } else {
        assert !Seen(done, next[k].id);
      }
    }
  }

  // ---- One cycle ----------------------------------------------------------------------

  /** What getRail shows of a rail in step 5. */
  datatype View = View(lockup: int, settledUpTo: int)

  /** What became of one candidate. */
  datatype Verdict = ViewFailed(error: string) | NotYet | SendFailed(error: string) | Sent(hash: string)

  /** A settleRail transaction handed to the sender. */
  datatype Ask = Ask(railId: int, until: int)

  /** Everything outside the tables that a cycle meets, by the index of the call. */
  datatype Cycle = Cycle(
    reply: Contract, details: nat -> Result<Detail>, upsertOk: nat -> bool, head: Result<int>, minEpochs: Option<int>,
    views: nat -> Result<View>, sends: nat -> Result<string>, wrote: nat -> bool,
    ownedAtStart: bool, ownedForUpsert: bool, ownedForPick: bool, owned: nat -> bool)

  predicate Tries(cycle: Cycle, current: int, i: nat) {
    && cycle.views(i).Ok?
    && Eligible(cycle.views(i).value.lockup, cycle.views(i).value.settledUpTo, current, cycle.minEpochs)
  }

  function VerdictOf(cycle: Cycle, current: int, i: nat): Verdict {
    if cycle.views(i).Err? then ViewFailed(cycle.views(i).error)
    else if !Tries(cycle, current, i) then NotYet
    else match cycle.sends(i) case Ok(hash) => Sent(hash) case Err(e) => SendFailed(e)
  }

  function MarkRow(row: Row, verdict: Verdict, current: int): Row {
    match verdict
    case NotYet => row
    case Sent(hash) => row.(lastSettled := current, lastTx := Some(hash), lastError := None)
    case ViewFailed(e) => row.(lastError := Some(e))
    case SendFailed(e) => row.(lastError := Some(e))
  }

  /** `UPDATE pdp_payment_rails SET ... WHERE rail_id = ?`; a failed update is ignored. */
  function Mark(rows: map<int, Row>, id: int, verdict: Verdict, current: int, wrote: bool): map<int, Row> {
    if id in rows && wrote then rows[id := MarkRow(rows[id], verdict, current)] else rows
  }

  function Marked(rows: map<int, Row>, candidates: seq<Rail>, cycle: Cycle, current: int, k: nat): map<int, Row>
    requires k <= |candidates|
  {
    if k == 0 then rows
    else Mark(Marked(rows, candidates, cycle, current, k - 1), candidates[k - 1].id,
              VerdictOf(cycle, current, k - 1), current, cycle.wrote(k - 1))
  }

  /**
   What the row of candidate i shows, column by column: a settlement only when the rail was due, a hash
   came back and the UPDATE landed; a failed view or send leaves its error and nothing else.
   */
  predicate RowTells(was: Row, row: Row, cycle: Cycle, current: int, i: nat) {
    && row.detail == was.detail && row.terminated == was.terminated && row.endEpoch == was.endEpoch
    && (!cycle.wrote(i) ==> row == was)
    && match cycle.views(i)
       case Err(e) =>
         row.lastSettled == was.lastSettled && row.lastTx == was.lastTx && (cycle.wrote(i) ==> row.lastError == Some(e))
       case Ok(view) =>
         if !Eligible(view.lockup, view.settledUpTo, current, cycle.minEpochs) then row == was
         else
           match cycle.sends(i)
           case Ok(hash) =>
             cycle.wrote(i) ==> row.lastSettled == current && row.lastTx == Some(hash) && row.lastError == None
           case Err(e) =>
             && row.lastSettled == was.lastSettled && row.lastTx == was.lastTx
             && (cycle.wrote(i) ==> row.lastError == Some(e))
  }

  /** Every candidate settled so far shows what became of it, and no other row changed. */
  ghost predicate RowsTell(before: map<int, Row>, after: map<int, Row>, candidates: seq<Rail>, cycle: Cycle,
                           current: int, k: nat)
    requires k <= |candidates|
  {
    && after.Keys == before.Keys
    && (forall id | id in before && !Seen(candidates[..k], id) :: after[id] == before[id])
    && (forall i | 0 <= i < k && candidates[i].id in before ::
          RowTells(before[candidates[i].id], after[candidates[i].id], cycle, current, i))
  }

  predicate NoRepeats(rails: seq<Rail>) {
    forall i, j | 0 <= i < j < |rails| :: rails[i].id != rails[j].id
  }

  /** With no rail listed twice, each row shows the verdict on its own rail, and other rows are untouched. */
  lemma {:induction false} MarkedEach(rows: map<int, Row>, candidates: seq<Rail>, cycle: Cycle, current: int, k: nat)
    requires k <= |candidates| && NoRepeats(candidates)
    ensures RowsTell(rows, Marked(rows, candidates, cycle, current, k), candidates, cycle, current, k)
  {
    if k > 0 {
      MarkedEach(rows, candidates, cycle, current, k - 1);
      var done, next := candidates[..k - 1], candidates[..k];
      assert next[k - 1] == candidates[k - 1] && forall i | 0 <= i < k - 1 :: next[i] == done[i] == candidates[i];
      forall id: int | Seen(done, id) ensures Seen(next, id) {
        var i :| 0 <= i < |done| && done[i].id == id;
        assert next[i].id == id;
      }
      assert next[k - 1].id == candidates[k - 1].id;
      var id := candidates[k - 1].id;
      if id in rows {
        assert !Seen(candidates[..k - 1], id);
      }
    }
  }

  /** Settling never touches a row's identity or terminal state, and lastSettled only moves to the current epoch. */
  lemma {:induction false} MarkedKeeps(rows: map<int, Row>, candidates: seq<Rail>, cycle: Cycle, current: int, k: nat,
                                       id: int)
    requires k <= |candidates| && id in rows
    ensures var after := Marked(rows, candidates, cycle, current, k);
            && id in after && after[id].detail == rows[id].detail
            && after[id].terminated == rows[id].terminated && after[id].endEpoch == rows[id].endEpoch
            && (after[id].lastSettled == rows[id].lastSettled || after[id].lastSettled == current)
  {
    if k > 0 {
      MarkedKeeps(rows, candidates, cycle, current, k - 1, id);
    }
  }

  /** The transactions handed to the sender for the first k candidates. */
  function Asks(candidates: seq<Rail>, cycle: Cycle, current: int, k: nat): seq<Ask>
    requires k <= |candidates|
  {
    if k == 0 then []
    else
      Asks(candidates, cycle, current, k - 1)
      + if Tries(cycle, current, k - 1) then [Ask(candidates[k - 1].id, current)] else []
  }

  /** What is asked for: the current epoch, for eligible candidates only, at most sixteen in a cycle. */
  lemma {:induction false} AsksAreEligible(rails: seq<Rail>, cycle: Cycle, current: int, k: nat, ask: Ask)
    requires k <= |Candidates(rails)|
    ensures |Asks(Candidates(rails), cycle, current, k)| <= k <= 16
    ensures ask in Asks(Candidates(rails), cycle, current, k) <==>
              && ask.until == current
              && exists i | 0 <= i < k :: Candidates(rails)[i].id == ask.railId && Tries(cycle, current, i)
  {
    if k > 0 {
      AsksAreEligible(rails, cycle, current, k - 1, ask);
      if i :| 0 <= i < k && Candidates(rails)[i].id == ask.railId && Tries(cycle, current, i) {
        assert i == k - 1 || i < k - 1;
      }
    }
  }

  /** filecoin_payment_transactions after INSERT OR IGNORE of every hash sent. */
  function Recorded(txs: map<string, int>, candidates: seq<Rail>, cycle: Cycle, current: int, insertOk: nat -> bool,
                    k: nat): map<string, int>
    requires k <= |candidates|
  {
    if k == 0 then txs
    else
      var before := Recorded(txs, candidates, cycle, current, insertOk, k - 1);
      match VerdictOf(cycle, current, k - 1)
      case Sent(hash) => if insertOk(k - 1) && hash !in before then before[hash := candidates[k - 1].id] else before
      case _ => before
  }

  /** The transaction of candidate i came back with this hash, and its row was inserted unless it was there. */
  predicate Landed(cycle: Cycle, current: int, insertOk: nat -> bool, i: nat, hash: string) {
    && cycle.views(i).Ok?
    && Eligible(cycle.views(i).value.lockup, cycle.views(i).value.settledUpTo, current, cycle.minEpochs)
    && cycle.sends(i) == Ok(hash) && insertOk(i)
  }

  /** The transactions recorded: those that landed, each under the first rail it was sent for; others stay. */
  ghost predicate TxsTell(before: map<string, int>, after: map<string, int>, candidates: seq<Rail>, cycle: Cycle,
                          current: int, insertOk: nat -> bool, k: nat)
    requires k <= |candidates|
  {
    && (forall hash | hash in before :: hash in after && after[hash] == before[hash])
    && (forall hash | hash in after && hash !in before :: exists i | 0 <= i < k ::
          && Landed(cycle, current, insertOk, i, hash) && after[hash] == candidates[i].id
          && forall j | 0 <= j < i :: !Landed(cycle, current, insertOk, j, hash))
    && (forall i, hash | 0 <= i < k && Landed(cycle, current, insertOk, i, hash) :: hash in after)
  }

  lemma {:induction false} RecordedTells(txs: map<string, int>, candidates: seq<Rail>, cycle: Cycle, current: int,
                                         insertOk: nat -> bool, k: nat)
    requires k <= |candidates|
    ensures TxsTell(txs, Recorded(txs, candidates, cycle, current, insertOk, k),
                    candidates, cycle, current, insertOk, k)
  {
    if k > 0 {
      RecordedTells(txs, candidates, cycle, current, insertOk, k - 1);
    }
  }

  datatype Outcome = Done | Lost | Failed

  /** How far a cycle got: pages fetched, rails mirrored, candidates settled. */
  datatype Reached = Reached(fetches: nat, upserted: nat, seen: nat)
  {
    /** The cycle went on from each step exactly when nothing stopped it there. */
    ghost predicate Follows(cycle: Cycle, rails: seq<Rail>) {
      && upserted <= |rails| && seen <= |Candidates(rails)|
      && (if cycle.ownedAtStart then Fetches(cycle.reply, fetches) else fetches == 0)
      && rails == (if fetches > 0 && PageAt(cycle.reply, fetches - 1).Ok? then Gathered(cycle.reply, fetches) else [])
      && (forall i | 0 <= i < upserted :: cycle.upsertOk(i))
      && (upserted < |rails| ==> if cycle.ownedForUpsert then !cycle.upsertOk(upserted) else upserted == 0)
      && (seen > 0 ==> cycle.ownedForUpsert && upserted == |rails| && cycle.ownedForPick && cycle.head.Ok?)
      && (forall i | 0 <= i < seen :: cycle.owned(i))
    }

    /** The settling of candidates stopped only where ownership was lost. */
    predicate Settled(cycle: Cycle, rails: seq<Rail>) {
      && (!Stopped(cycle, rails) && cycle.ownedForPick && cycle.head.Ok? && seen < |Candidates(rails)| ==>
          !cycle.owned(seen))
    }

    /** Whether the cycle ended before the pick. */
    predicate Stopped(cycle: Cycle, rails: seq<Rail>) {
      || !cycle.ownedAtStart || rails == [] || !cycle.ownedForUpsert || upserted < |rails|
    }

    /** What Do reports: done, ownership lost, or an error. */
    function Outcome(cycle: Cycle, rails: seq<Rail>): Outcome {
      if !cycle.ownedAtStart then Lost
      else if fetches > 0 && PageAt(cycle.reply, fetches - 1).Err? then Failed
      else if rails == [] then Done
      else if !cycle.ownedForUpsert then Lost
      else if upserted < |rails| then Failed
      else if !cycle.ownedForPick then Lost
      else if Candidates(rails) == [] then Done
      else if cycle.head.Err? then Failed
      else if seen < |Candidates(rails)| then Lost
      else Done
    }
  }

  /** What Do reports, by where the cycle ended. */
  lemma OutcomeTells(at: Reached, cycle: Cycle, rails: seq<Rail>, picked: bool)
    requires at.Follows(cycle, rails)
    requires picked <==> rails != [] && cycle.ownedForUpsert && at.upserted == |rails| && cycle.ownedForPick
    ensures at.Outcome(cycle, rails) == Failed <==>
              && cycle.ownedAtStart
              && (|| PageAt(cycle.reply, at.fetches - 1).Err?
                  || (rails != [] && cycle.ownedForUpsert && at.upserted < |rails|)
                  || (picked && Candidates(rails) != [] && cycle.head.Err?))
    ensures at.Outcome(cycle, rails) == Done <==>
              && cycle.ownedAtStart && PageAt(cycle.reply, at.fetches - 1).Ok?
              && (rails == [] || (picked && at.seen == |Candidates(rails)|))
  {}

  class Task {
    var rows: map<int, Row>
    var txs: map<string, int>
    const unknown: Detail

    constructor (rows: map<int, Row>, txs: map<string, int>, payee: string, token: string)
      ensures this.rows == rows && this.txs == txs && unknown == Detail("", payee, token, "", "")
    {
      this.rows, this.txs, unknown := rows, txs, Detail("", payee, token, "", "");
    }

    /** upsertRails; `upsertOk(i)` is whether the statements for rail `i` succeed, `details(i)` what getRail answers. */
    method UpsertRails(rails: seq<Rail>, details: nat -> Result<Detail>, upsertOk: nat -> bool)
      returns (ok: bool, seen: nat)
      modifies this`rows
      ensures seen <= |rails| && Mirrors(old(rows), rows, rails[..seen], details, unknown)
      ensures MirrorTells(old(rows), rows, rails[..seen], details, unknown)
      ensures if ok then seen == |rails| else seen < |rails| && !upsertOk(seen)
      ensures forall i | 0 <= i < seen :: upsertOk(i)
    {
      seen := 0;
      assert rails[..0] == [];
      while seen < |rails|
        invariant seen <= |rails| && Mirrors(old(rows), rows, rails[..seen], details, unknown)
        invariant forall i | 0 <= i < seen :: upsertOk(i)
      {
        if !upsertOk(seen) {
          MirrorsTell(old(rows), rows, rails[..seen], details, unknown);
          return false, seen;
        }
        MirrorOne(old(rows), rows, rails, seen, details, unknown);
        var rail := rails[seen];
        if rail.id in rows {
          rows := rows[rail.id := rows[rail.id].(terminated := rail.terminated, endEpoch := rail.endEpoch)];
        } else {
          rows := rows[rail.id := NewRow(details(seen), unknown, rail)];
        }
        seen := seen + 1;
      }
      MirrorsTell(old(rows), rows, rails[..seen], details, unknown);
      ok := true;
    }

    /** Step 5 of Do: one verdict per candidate, its row marked, its transaction recorded. */
    method SettleCandidates(candidates: seq<Rail>, cycle: Cycle, current: int, insertOk: nat -> bool)
      returns (seen: nat, asks: seq<Ask>)
      modifies this
      ensures seen <= |candidates| && (seen < |candidates| ==> !cycle.owned(seen))
      ensures forall i | 0 <= i < seen :: cycle.owned(i)
      ensures rows == Marked(old(rows), candidates, cycle, current, seen)
      ensures NoRepeats(candidates) ==> RowsTell(old(rows), rows, candidates, cycle, current, seen)
      ensures txs == Recorded(old(txs), candidates, cycle, current, insertOk, seen)
      ensures TxsTell(old(txs), txs, candidates, cycle, current, insertOk, seen)
      ensures asks == Asks(candidates, cycle, current, seen)
    {
      seen, asks := 0, [];
      while seen < |candidates| && cycle.owned(seen)
        invariant seen <= |candidates| && forall i | 0 <= i < seen :: cycle.owned(i)
        invariant rows == Marked(old(rows), candidates, cycle, current, seen)
        invariant txs == Recorded(old(txs), candidates, cycle, current, insertOk, seen)
        invariant asks == Asks(candidates, cycle, current, seen)
      {
        var id, view := candidates[seen].id, cycle.views(seen);
        if view.Err? {
          rows := Mark(rows, id, ViewFailed(view.error), current, cycle.wrote(seen));
        } else if Eligible(view.value.lockup, view.value.settledUpTo, current, cycle.minEpochs) {
          asks := asks + [Ask(id, current)];
          var sent := cycle.sends(seen);
          if sent.Err? {
            rows := Mark(rows, id, SendFailed(sent.error), current, cycle.wrote(seen));
          } else {
            rows := Mark(rows, id, Sent(sent.value), current, cycle.wrote(seen));
            if insertOk(seen) && sent.value !in txs {
              txs := txs[sent.value := id];
            }
          }
        }
        seen := seen + 1;
      }
      RecordedTells(old(txs), candidates, cycle, current, insertOk, seen);
      if NoRepeats(candidates) {
        MarkedEach(old(rows), candidates, cycle, current, seen);
      }
    }

    /** Steps 1 and 2 of Do: discover and mirror; `stopped` when the cycle ends there. */
    method DiscoverAndMirror(cycle: Cycle) returns (stopped: bool, at: Reached, rails: seq<Rail>)
      modifies this`rows
      ensures at.seen == 0 && at.Follows(cycle, rails)
      ensures Mirrors(old(rows), rows, rails[..at.upserted], cycle.details, unknown)
      ensures stopped == at.Stopped(cycle, rails)
    {
      rails, at := [], Reached(0, 0, 0);
      if !cycle.ownedAtStart {
        return true, at, rails;
      }
      var found, fetches := Discover(cycle.reply);
      at := Reached(fetches, 0, 0);
      if found.Err? {
        return true, at, rails;
      }
      rails := found.value;
      if rails == [] || !cycle.ownedForUpsert {
        return true, at, rails;
      }
      var ok, upserted := UpsertRails(rails, cycle.details, cycle.upsertOk);
      at := Reached(fetches, upserted, 0);
      stopped := !ok;
    }

    /**
     Do: discover, mirror, pick, settle. `mirrored` is the table between the two steps that write it,
     and `at` says how far the cycle got.
     */
    method Do(cycle: Cycle, insertOk: nat -> bool)
      returns (outcome: Outcome, at: Reached, rails: seq<Rail>, ghost mirrored: map<int, Row>, asks: seq<Ask>)
      modifies this
      ensures at.Follows(cycle, rails) && at.Settled(cycle, rails) && outcome == at.Outcome(cycle, rails)
      ensures Mirrors(old(rows), mirrored, rails[..at.upserted], cycle.details, unknown)
      ensures var current := if cycle.head.Ok? then cycle.head.value else 0;
              && rows == Marked(mirrored, Candidates(rails), cycle, current, at.seen)
              && txs == Recorded(old(txs), Candidates(rails), cycle, current, insertOk, at.seen)
              && (NoRepeats(Candidates(rails)) ==>
                    RowsTell(mirrored, rows, Candidates(rails), cycle, current, at.seen))
              && TxsTell(old(txs), txs, Candidates(rails), cycle, current, insertOk, at.seen)
              && asks == Asks(Candidates(rails), cycle, current, at.seen)
    {
      var stopped;
      stopped, at, rails := DiscoverAndMirror(cycle);
      mirrored, asks := rows, [];
      var candidates := Pick(rails);
      if !stopped && cycle.ownedForPick && candidates != [] && cycle.head.Ok? {
        var seen;
        seen, asks := SettleCandidates(candidates, cycle, cycle.head.value, insertOk);
        at := at.(seen := seen);
      }
      outcome := at.Outcome(cycle, rails);
    }
  }

  // ---- One rail over many runs of Do --------------------------------------------------

  /** A run of Do, with what it returned. */
  datatype Visit = Visit(cycle: Cycle, rails: seq<Rail>, at: Reached, asks: seq<Ask>)
  {
    /** As the contract of Do has it, for a run that read the chain's head. */
    ghost predicate Valid() {
      && cycle.head.Ok? && at.Follows(cycle, rails) && at.Settled(cycle, rails)
      && asks == Asks(Candidates(rails), cycle, Head(), at.seen)
    }

    function Head(): int {
      if cycle.head.Ok? then cycle.head.value else 0
    }

    /** The rail was among the candidates, and the run got to it. */
    predicate Reaches(id: int) {
      exists i | 0 <= i < at.seen && i < |Candidates(rails)| :: Candidates(rails)[i].id == id
    }

    /** What getRail shows of the rail in this run. */
    predicate Shows(id: int, lockup: int, settled: int) {
      forall i | 0 <= i < |Candidates(rails)| && Candidates(rails)[i].id == id ::
        cycle.views(i) == Ok(View(lockup, settled))
    }

    predicate Asked(id: int) {
      Ask(id, Head()) in asks
    }

    function AsPoll(): Poll {
      Poll(Head(), cycle.minEpochs)
    }
  }

  /** A run asks for a rail it reaches exactly when the rail is eligible. */
  lemma AskedIff(v: Visit, id: int, lockup: int, settled: int)
    requires v.Valid() && v.Reaches(id) && v.Shows(id, lockup, settled)
    ensures v.Asked(id) <==> Settles(lockup, settled, v.AsPoll())
  {
    AsksAreEligible(v.rails, v.cycle, v.Head(), v.at.seen, Ask(id, v.Head()));
    var i :| 0 <= i < v.at.seen && Candidates(v.rails)[i].id == id;
    assert Tries(v.cycle, v.Head(), i) <==> Settles(lockup, settled, v.AsPoll());
  }

  /**
   Runs that all reach one rail of constant lockup, `settled[k]` being its settledUpTo before the
   k-th: the head of the run before it when that run asked, otherwise what it was.
   */
  ghost predicate Follow(visits: seq<Visit>, id: int, lockup: int, settled: seq<int>) {
    && |settled| == |visits| + 1
    && forall k | 0 <= k < |visits| :: FollowsOn(visits[k], id, lockup, settled[k], settled[k + 1])
  }

  ghost predicate FollowsOn(v: Visit, id: int, lockup: int, before: int, after: int) {
    && v.Valid() && v.Reaches(id) && v.Shows(id, lockup, before)
    && after == if v.Asked(id) then v.Head() else before
  }

  function Polls(visits: seq<Visit>): seq<Poll> {
    seq(|visits|, k requires 0 <= k < |visits| => visits[k].AsPoll())
  }

  /** The spans of epochs that the first k runs asked for. */
  function AskedSpans(visits: seq<Visit>, id: int, settled: seq<int>, k: nat): seq<(int, int)>
    requires k <= |visits| < |settled|
  {
    if k == 0 then []
    else
      var v := visits[k - 1];
      AskedSpans(visits, id, settled, k - 1) + if v.Asked(id) then [(settled[k - 1], v.Head())] else []
  }

  /** Such runs are the polls of the lemmas above. */
  lemma {:induction false} RunsArePolls(visits: seq<Visit>, id: int, lockup: int, settled: seq<int>, k: nat)
    requires Follow(visits, id, lockup, settled) && k <= |visits|
    ensures settled[k] == SettledAt(lockup, settled[0], Polls(visits), k)
    ensures AskedSpans(visits, id, settled, k) == Spans(lockup, settled[0], Polls(visits), k)
  {
    if k > 0 {
      RunsArePolls(visits, id, lockup, settled, k - 1);
      assert FollowsOn(visits[k - 1], id, lockup, settled[k - 1], settled[k - 1 + 1]);
      AskedIff(visits[k - 1], id, lockup, settled[k - 1]);
    }
  }

  /**
   Runs of Do that reach the rail and are at most a day of epochs apart: at each of them, so whenever
   one asks, no more than the lockup period or one gap has accrued, whatever the override says.
   */
  lemma SettledWithinLockup(visits: seq<Visit>, id: int, lockup: int, settled: seq<int>, gap: nat, k: nat)
    requires Follow(visits, id, lockup, settled) && k < |visits|
    requires Paced(Polls(visits), gap) && gap <= EPOCHS_IN_DAY
    requires settled[0] <= visits[0].Head() <= settled[0] + if lockup > gap then lockup else gap
    ensures settled[k] <= visits[k].Head() <= settled[k] + if lockup > gap then lockup else gap
  {
    RunsArePolls(visits, id, lockup, settled, k);
    AccruedWithinBound(lockup, settled[0], Polls(visits), gap, if lockup > gap then lockup else gap, k);
  }

  /** What those runs ask for never overlaps, and adds up to the progress of settledUpTo. */
  lemma AskedSpansTile(visits: seq<Visit>, id: int, lockup: int, settled: seq<int>, gap: nat, k: nat)
    requires Follow(visits, id, lockup, settled) && k <= |visits|
    requires Paced(Polls(visits), gap) && (visits != [] ==> settled[0] <= visits[0].Head())
    ensures var spans := AskedSpans(visits, id, settled, k);
            && (forall i, j | 0 <= i < j < |spans| :: spans[i].1 <= spans[j].0)
            && (forall i | 0 <= i < |spans| :: settled[0] <= spans[i].0 <= spans[i].1 <= settled[k])
            && Total(spans) == settled[k] - settled[0]
  {
    RunsArePolls(visits, id, lockup, settled, k);
    SpansTile(lockup, settled[0], Polls(visits), gap, k);
  }

  /** Without an override, runs ask only once more than a week, or lockup less a day, has accrued. */
  lemma AskedSpansAreLong(visits: seq<Visit>, id: int, lockup: int, settled: seq<int>, k: nat)
    requires Follow(visits, id, lockup, settled) && k <= |visits| && lockup > EPOCHS_IN_DAY
    requires forall i | 0 <= i < |visits| :: visits[i].cycle.minEpochs == None
    ensures forall span | span in AskedSpans(visits, id, settled, k) ::
              span.1 - span.0 > Min(7 * EPOCHS_IN_DAY, lockup - EPOCHS_IN_DAY)
  {
    RunsArePolls(visits, id, lockup, settled, k);
    SpansAreLong(lockup, settled[0], Polls(visits), k);
  }

  /** FilecoinPay settles a rail at most its lockup period past settledUpTo: what runs ask for stays below that. */
  ghost predicate RunsStayInCap(lockup: int, gap: nat) {
    forall visits, id, settled, k: nat | PacedRuns(visits, id, lockup, settled, gap) && k < |visits| ::
      AsksInCap(visits[k], id, lockup, settled[k])
  }

  /** Runs at most `gap` apart, the first when no more than the lockup period has accrued. */
  ghost predicate PacedRuns(visits: seq<Visit>, id: int, lockup: int, settled: seq<int>, gap: nat) {
    && Follow(visits, id, lockup, settled) && Paced(Polls(visits), gap)
    && (visits != [] ==> settled[0] <= visits[0].Head() <= settled[0] + lockup)
  }

  predicate AsksInCap(v: Visit, id: int, lockup: int, settled: int) {
    v.Asked(id) ==> v.Head() <= settled + lockup
  }

  /** A run in which the contract lists one rail only and nothing fails. */
  function VisitOf(rail: Rail, view: View, poll: Poll): Visit {
    var cycle := Cycle((_, _) => Ok(Page([rail], 0, 1)), _ => Err(""), _ => true, Ok(poll.epoch), poll.minEpochs,
                       _ => Ok(view), _ => Ok(""), _ => true, true, true, true, _ => true);
    Visit(cycle, [rail], Reached(1, 1, 1), if Tries(cycle, poll.epoch, 0) then [Ask(rail.id, poll.epoch)] else [])
  }

  lemma VisitOfIs(rail: Rail, view: View, poll: Poll)
    requires !rail.terminated
    ensures var v := VisitOf(rail, view, poll);
            v.Valid() && v.Reaches(rail.id) && v.Shows(rail.id, view.lockup, view.settledUpTo) && v.AsPoll() == poll
  {
    var v := VisitOf(rail, view, poll);
    assert Gathered(v.cycle.reply, 1) == [rail];
    assert Fetches(v.cycle.reply, 1);
    assert Active([rail][..0]) == [];
    assert Candidates([rail]) == [rail];
    assert Asks([rail], v.cycle, poll.epoch, 0) == [];
  }

  lemma VisitOfFollows(rail: Rail, view: View, poll: Poll)
    requires !rail.terminated
    ensures var v := VisitOf(rail, view, poll);
            && v.AsPoll() == poll
            && FollowsOn(v, rail.id, view.lockup, view.settledUpTo,
                         if Settles(view.lockup, view.settledUpTo, poll) then poll.epoch else view.settledUpTo)
  {
    VisitOfIs(rail, view, poll);
    AskedIff(VisitOf(rail, view, poll), rail.id, view.lockup, view.settledUpTo);
  }

  /** Every sequence of polls is one of runs of Do. */
  lemma {:induction false} PollsAreRuns(lockup: int, settled: int, polls: seq<Poll>, id: int)
    returns (visits: seq<Visit>, after: seq<int>)
    ensures Follow(visits, id, lockup, after) && Polls(visits) == polls && after[0] == settled
    decreases |polls|
  {
    if polls == [] {
      return [], [settled];
    }
    var n := |polls| - 1;
    visits, after := PollsAreRuns(lockup, settled, polls[..n], id);
    var view, poll := View(lockup, after[n]), polls[n];
    VisitOfFollows(Rail(id, false, 0), view, poll);
    OneMoreVisit(visits, id, lockup, after, VisitOf(Rail(id, false, 0), view, poll),
                 if Settles(lockup, after[n], poll) then poll.epoch else after[n]);
    assert polls == polls[..n] + [poll];
    visits := visits + [VisitOf(Rail(id, false, 0), view, poll)];
    after := after + [if Settles(lockup, after[n], poll) then poll.epoch else after[n]];
  }

  lemma OneMoreVisit(visits: seq<Visit>, id: int, lockup: int, settled: seq<int>, v: Visit, next: int)
    requires Follow(visits, id, lockup, settled) && FollowsOn(v, id, lockup, settled[|visits|], next)
    ensures Follow(visits + [v], id, lockup, settled + [next])
    ensures Polls(visits + [v]) == Polls(visits) + [v.AsPoll()]
  {
    var (vs, ss) := (visits + [v], settled + [next]);
    forall k | 0 <= k < |vs| ensures FollowsOn(vs[k], id, lockup, ss[k], ss[k + 1]) {
      if k < |visits| {
        assert FollowsOn(visits[k], id, lockup, settled[k], settled[k + 1]);
      }
    }
  }

  /**
   No run of Do asks for epochs past the cap, exactly when runs are no further apart than a day and
   the lockup period.
   */
  lemma CapIffRunsKeepUp(lockup: nat, gap: nat)
    ensures RunsStayInCap(lockup, gap) <==> gap <= Min(lockup, EPOCHS_IN_DAY)
  {
    if gap <= Min(lockup, EPOCHS_IN_DAY) {
      forall visits, id, settled, k: nat | PacedRuns(visits, id, lockup, settled, gap) && k < |visits|
        ensures AsksInCap(visits[k], id, lockup, settled[k])
      {
        RunsArePolls(visits, id, lockup, settled, k);
        AccruedWithinBound(lockup, settled[0], Polls(visits), gap, lockup, k);
      }
    } else {
      var polls := SlowPollsPassCap(lockup, gap);
      var visits, settled := PollsAreRuns(lockup, 0, polls, 0);
      RunsArePolls(visits, 0, lockup, settled, 1);
      assert FollowsOn(visits[1], 0, lockup, settled[1], settled[1 + 1]);
      AskedIff(visits[1], 0, lockup, settled[1]);
      assert Polls(visits)[0] == visits[0].AsPoll() && Polls(visits)[1] == visits[1].AsPoll();
      assert PacedRuns(visits, 0, lockup, settled, gap);
      assert !AsksInCap(visits[1], 0, lockup, settled[1]);
    }
  }
}
