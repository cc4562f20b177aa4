/**
 * The end-of-game summary (server.js, endGame): the leaderboard, and the
 * best ("soulmates") and worst ("strangers") guesser/spotlight pairs found by
 * scanning the match history in key order.
 */
module Summary {

  import opened OrderedMaps
  import opened GameTypes

  // ---- Leaderboard: `Object.values(players).sort((a, b) => b.score - a.score)`

  predicate SortedByScore(ps: seq<Player>) {
    forall i, j :: 0 <= i < j < |ps| ==> ps[i].score >= ps[j].score
  }

  /** Places `p` before the first player scoring no more than it, so ties keep their order. */
  function InsertByScore(p: Player, sorted: seq<Player>): (r: seq<Player>)
    ensures multiset(r) == multiset{p} + multiset(sorted)
  {
    if sorted == [] || sorted[0].score <= p.score then [p] + sorted
    else
      assert sorted == [sorted[0]] + sorted[1..];
      [sorted[0]] + InsertByScore(p, sorted[1..])
  }

  lemma {:induction false} InsertKeepsSorted(p: Player, sorted: seq<Player>)
    requires SortedByScore(sorted)
    ensures SortedByScore(InsertByScore(p, sorted))
  {
    if sorted != [] && sorted[0].score > p.score {
      var rest := InsertByScore(p, sorted[1..]);
      InsertKeepsSorted(p, sorted[1..]);
      forall x | x in rest
        ensures x.score <= sorted[0].score
      {
        assert x in multiset(rest);
        if x != p {
          assert x in multiset(sorted[1..]);
        }
      }
      assert InsertByScore(p, sorted) == [sorted[0]] + rest;
    }
  }

  /** A stable sort by non-increasing score. */
  function SortByScore(ps: seq<Player>): (r: seq<Player>)
    ensures multiset(r) == multiset(ps)
  {
    if ps == [] then []
    else
      assert ps == [ps[0]] + ps[1..];
      InsertByScore(ps[0], SortByScore(ps[1..]))
  }

  /** The leaderboard is ordered by non-increasing score. */
  lemma {:induction false} LeaderboardSorted(ps: seq<Player>)
    ensures SortedByScore(SortByScore(ps))
  {
    if ps != [] {
      LeaderboardSorted(ps[1..]);
      InsertKeepsSorted(ps[0], SortByScore(ps[1..]));
    }
  }

  lemma LeaderboardLength(ps: seq<Player>)
    ensures |SortByScore(ps)| == |ps|
  {
    assert |multiset(SortByScore(ps))| == |multiset(ps)|;
  }

  /**
   * The sort is stable, so the winner (the leaderboard's head) is the first
   * player, in key order, of the top score.
   */
  lemma {:induction false} WinnerIsFirstTopScorer(ps: seq<Player>)
    requires ps != []
    ensures exists i :: 0 <= i < |ps| && SortByScore(ps)[0] == ps[i] && IsFirstTop(ps, i)
  {
    var tail := ps[1..];
    var rest := SortByScore(tail);
    assert SortByScore(ps) == InsertByScore(ps[0], rest);
    if rest == [] {
      LeaderboardLength(tail);
      assert SortByScore(ps)[0] == ps[0] && IsFirstTop(ps, 0);
    } else {
      WinnerIsFirstTopScorer(tail);
      var i :| 0 <= i < |tail| && rest[0] == tail[i] && IsFirstTop(tail, i);
      if rest[0].score <= ps[0].score {
        assert SortByScore(ps)[0] == ps[0];
        FirstTopFromTail(ps, i);
      } else {
        assert SortByScore(ps)[0] == ps[i + 1];
        FirstTopFromTail(ps, i);
      }
    }
  }

  /** The first top scorer of `ps` is its head, or the first top scorer of its tail if that scores more. */
  lemma FirstTopFromTail(ps: seq<Player>, i: nat)
    requires 1 < |ps| && i < |ps| - 1 && IsFirstTop(ps[1..], i)
    ensures ps[i + 1].score <= ps[0].score ==> IsFirstTop(ps, 0)
    ensures ps[i + 1].score > ps[0].score ==> IsFirstTop(ps, i + 1)
  {
    assert forall j :: 1 <= j < |ps| ==> ps[j] == ps[1..][j - 1];
  }

  /** `ps[i]` has the top score, and every player before it scores less. */
  ghost predicate IsFirstTop(ps: seq<Player>, i: int)
    requires 0 <= i < |ps|
  {
    (forall j :: 0 <= j < |ps| ==> ps[j].score <= ps[i].score) && (forall j :: 0 <= j < i ==> ps[j].score < ps[i].score)
  }

  // ---- The match-history scan

  /** One `matchHistory[guesserId][targetId]` cell. */
  datatype Entry = Entry(guesser: ConnId, target: ConnId, points: int)

  ghost predicate HistoryValid(h: History) {
    Valid(h) && forall g :: g in h.vals ==> Valid(h.vals[g])
  }

  /** The first `n` cells of guesser `g`'s row, in key order. */
  function RowEntries(g: ConnId, row: OMap<int>, n: nat): seq<Entry>
    requires Valid(row) && n <= |row.keys|
  {
    if n == 0 then []
    else RowEntries(g, row, n - 1) + [Entry(g, row.keys[n - 1], row.vals[row.keys[n - 1]])]
  }

  /** The cells of the first `n` rows, in the order the nested `for ... in` loops visit them. */
  function HistEntries(h: History, n: nat): seq<Entry>
    requires HistoryValid(h) && n <= |h.keys|
  {
    if n == 0 then []
    else
      var g := h.keys[n - 1];
      HistEntries(h, n - 1) + RowEntries(g, h.vals[g], |h.vals[g].keys|)
  }

  function AllEntries(h: History): seq<Entry>
    requires HistoryValid(h)
  {
    HistEntries(h, |h.keys|)
  }

  /** The first `n` entries of a row are exactly its first `n` cells. */
  lemma {:induction false} RowEntriesAreCells(g: ConnId, row: OMap<int>, n: nat)
    requires Valid(row) && n <= |row.keys|
    ensures forall e :: e in RowEntries(g, row, n) ==> e.guesser == g && e.target in row.vals && e.points == row.vals[e.target]
    ensures forall j :: 0 <= j < n ==> Entry(g, row.keys[j], row.vals[row.keys[j]]) in RowEntries(g, row, n)
  {
    if n > 0 {
      RowEntriesAreCells(g, row, n - 1);
    }
  }

  /** The entries of the first `n` rows are exactly the cells of those rows. */
  lemma {:induction false} HistEntriesAreCells(h: History, n: nat)
    requires HistoryValid(h) && n <= |h.keys|
    ensures forall e :: e in HistEntries(h, n) ==>
      e.guesser in h.vals && e.target in h.vals[e.guesser].vals && e.points == h.vals[e.guesser].vals[e.target]
    ensures forall e :: e in HistEntries(h, n) ==> e.guesser in h.keys[..n]
    ensures forall i, t :: 0 <= i < n && t in h.vals[h.keys[i]].vals ==>
      Entry(h.keys[i], t, h.vals[h.keys[i]].vals[t]) in HistEntries(h, n)
  {
    if n > 0 {
      HistEntriesAreCells(h, n - 1);
      var g := h.keys[n - 1];
      var row := h.vals[g];
      RowEntriesAreCells(g, row, |row.keys|);
      assert h.keys[..n] == h.keys[..n - 1] + [g];
      forall t | t in row.vals
        ensures Entry(g, t, row.vals[t]) in HistEntries(h, n)
      {
        var j :| 0 <= j < |row.keys| && row.keys[j] == t;
      }
    }
  }

  /** The scan visits exactly the cells of the history: each once it is in a row, and nothing else. */
  lemma ScanCoversHistory(h: History)
    requires HistoryValid(h)
    ensures forall e :: e in AllEntries(h) <==>
      e.guesser in h.vals && e.target in h.vals[e.guesser].vals && e.points == h.vals[e.guesser].vals[e.target]
  {
    HistEntriesAreCells(h, |h.keys|);
    forall g, t | g in h.vals && t in h.vals[g].vals
      ensures Entry(g, t, h.vals[g].vals[t]) in AllEntries(h)
    {
      var i :| 0 <= i < |h.keys| && h.keys[i] == g;
    }
  }

  /** A history whose rows are all empty has nothing to scan. */
  lemma {:induction false} EmptyRowsNoEntries(h: History, n: nat)
    requires HistoryValid(h) && n <= |h.keys|
    requires forall g :: g in h.vals ==> h.vals[g].keys == []
    ensures HistEntries(h, n) == []
  {
    if n > 0 {
      EmptyRowsNoEntries(h, n - 1);
      assert h.keys[n - 1] in h.vals;
    }
  }

  /** The name shown for a player id; the game-over path only looks up present players. */
  function NameOf(players: OMap<Player>, id: ConnId): string {
    if id in players.vals then players.vals[id].name else ""
  }

  function PairOf(e: Entry, players: OMap<Player>): Pair {
    Pair(NameOf(players, e.guesser) + " & " + NameOf(players, e.target), e.points)
  }

  const NoBest: Pair := Pair("No Data", -1)
  const NoWorst: Pair := Pair("No Data", 9999)
  const NoStrangers: Pair := Pair("None", 0)

  function BestScore(es: seq<Entry>, k: int): int
    requires -1 <= k < |es|
  {
    if k == -1 then NoBest.score else es[k].points
  }

  /**
   * The index the `points > bestPair.score` scan settles on, -1 when nothing
   * beat the initial score -1: the first entry of maximal points.
   */
  function BestIndex(es: seq<Entry>): (k: int)
    ensures -1 <= k < |es|
    ensures forall j :: 0 <= j < |es| ==> es[j].points <= BestScore(es, k)
    ensures k >= 0 ==> es[k].points > NoBest.score && forall j :: 0 <= j < k ==> es[j].points < es[k].points
  {
    if es == [] then -1
    else
      var init := es[..|es| - 1];
      var b := BestIndex(init);
      assert forall j :: 0 <= j < |init| ==> init[j] == es[j];
      if es[|es| - 1].points > BestScore(init, b) then |es| - 1 else b
  }

  function WorstScore(es: seq<Entry>, k: int): int
    requires -1 <= k < |es|
  {
    if k == -1 then NoWorst.score else es[k].points
  }

  /**
   * The index the `points < worstPair.score` scan settles on, -1 when nothing
   * went below the initial score 9999: the first entry of minimal points, if that is below 9999.
   */
  function WorstIndex(es: seq<Entry>): (k: int)
    ensures -1 <= k < |es|
    ensures forall j :: 0 <= j < |es| ==> es[j].points >= WorstScore(es, k)
    ensures k >= 0 ==> es[k].points < NoWorst.score && forall j :: 0 <= j < k ==> es[j].points > es[k].points
  {
    if es == [] then -1
    else
      var init := es[..|es| - 1];
      var w := WorstIndex(init);
      assert forall j :: 0 <= j < |init| ==> init[j] == es[j];
      if es[|es| - 1].points < WorstScore(init, w) then |es| - 1 else w
  }

  /** `bestPair` after the scan. */
  function BestPair(es: seq<Entry>, players: OMap<Player>): Pair {
    var k := BestIndex(es);
    if k == -1 then NoBest else PairOf(es[k], players)
  }

  /** `worstPair` after the scan, before the 9999 sentinel is replaced. */
  function WorstPair(es: seq<Entry>, players: OMap<Player>): Pair {
    var k := WorstIndex(es);
    if k == -1 then NoWorst else PairOf(es[k], players)
  }

  /** The `strangers` of gameOver: `{names: "None", score: 0}` when the scan found nothing below 9999. */
  function Strangers(es: seq<Entry>, players: OMap<Player>): Pair {
    var w := WorstPair(es, players);
    if w.score == NoWorst.score then NoStrangers else w
  }

  /** One step of the best scan, as the loop body takes it. */
  lemma BestStep(es: seq<Entry>, e: Entry, players: OMap<Player>)
    ensures BestPair(es + [e], players) ==
      if e.points > BestPair(es, players).score then PairOf(e, players) else BestPair(es, players)
  {
    assert (es + [e])[..|es|] == es;
  }

  /** One step of the worst scan, as the loop body takes it. */
  lemma WorstStep(es: seq<Entry>, e: Entry, players: OMap<Player>)
    ensures WorstPair(es + [e], players) ==
      if e.points < WorstPair(es, players).score then PairOf(e, players) else WorstPair(es, players)
  {
    assert (es + [e])[..|es|] == es;
  }

  /**
   * Strangers is the sentinel exactly when no cell is below 9999 (in
   * particular when there are no cells); otherwise it names the first cell
   * of minimal points.
   */
  lemma StrangersSpec(es: seq<Entry>, players: OMap<Player>)
    ensures (forall j :: 0 <= j < |es| ==> es[j].points >= NoWorst.score) ==> Strangers(es, players) == NoStrangers
    ensures !(forall j :: 0 <= j < |es| ==> es[j].points >= NoWorst.score) ==>
      var k := WorstIndex(es);
      && 0 <= k < |es|
      && Strangers(es, players) == PairOf(es[k], players)
      && (forall j :: 0 <= j < |es| ==> es[j].points >= es[k].points)
      && (forall j :: 0 <= j < k ==> es[j].points > es[k].points)
  {
  }

  /**
   * Over the whole match history: no cell beats the soulmates' score, and
   * once some cell is below 9999 no cell is below the strangers' score.
   */
  lemma PairsBoundEveryCell(h: History, players: OMap<Player>)
    requires HistoryValid(h)
    ensures forall g, t :: g in h.vals && t in h.vals[g].vals ==>
      && h.vals[g].vals[t] <= BestPair(AllEntries(h), players).score
      && (h.vals[g].vals[t] < NoWorst.score ==> Strangers(AllEntries(h), players).score <= h.vals[g].vals[t])
  {
    var es := AllEntries(h);
    ScanCoversHistory(h);
    StrangersSpec(es, players);
    forall g, t | g in h.vals && t in h.vals[g].vals
      ensures h.vals[g].vals[t] <= BestPair(es, players).score
      ensures h.vals[g].vals[t] < NoWorst.score ==> Strangers(es, players).score <= h.vals[g].vals[t]
    {
      var e := Entry(g, t, h.vals[g].vals[t]);
      assert e in es;
      var j :| 0 <= j < |es| && es[j] == e;
    }
  }

  // ---- The scan as endGame runs it

  /**
   * Reading entry `e` after the entries `es` does not fail: the loop looks
   * both names up only when `e` beats the best or the worst pair so far.
   */
  predicate StepSafe(es: seq<Entry>, e: Entry, players: OMap<Player>) {
    (e.points > BestPair(es, players).score || e.points < WorstPair(es, players).score) ==>
      e.guesser in players.vals && e.target in players.vals
  }

  /** The whole scan looks up only present players. */
  ghost predicate ScanSafe(es: seq<Entry>, players: OMap<Player>) {
    forall k :: 0 <= k < |es| ==> StepSafe(es[..k], es[k], players)
  }

  /** A history all of whose cells name present players can be scanned. */
  lemma KnownNamesScanSafely(h: History, players: OMap<Player>)
    requires HistoryValid(h)
    requires forall g, t :: g in h.vals && t in h.vals[g].vals ==> g in players.vals && t in players.vals
    ensures ScanSafe(AllEntries(h), players)
  {
    var es := AllEntries(h);
    HistEntriesAreCells(h, |h.keys|);
    forall k | 0 <= k < |es|
      ensures StepSafe(es[..k], es[k], players)
    {
      assert es[k] in es;
    }
  }

  lemma {:induction false} RowPrefix(g: ConnId, row: OMap<int>, j: nat, n: nat)
    requires Valid(row) && j <= n <= |row.keys|
    ensures RowEntries(g, row, j) <= RowEntries(g, row, n)
    decreases n
  {
    if j < n {
      RowPrefix(g, row, j, n - 1);
      var prev := RowEntries(g, row, n - 1);
      assert RowEntries(g, row, n) == prev + [Entry(g, row.keys[n - 1], row.vals[row.keys[n - 1]])];
      PrefixExtend(RowEntries(g, row, j), prev, [Entry(g, row.keys[n - 1], row.vals[row.keys[n - 1]])]);
    }
  }

  lemma {:induction false} HistPrefix(h: History, i: nat, n: nat)
    requires HistoryValid(h) && i <= n <= |h.keys|
    ensures HistEntries(h, i) <= HistEntries(h, n)
    decreases n
  {
    if i < n {
      HistPrefix(h, i, n - 1);
      var g := h.keys[n - 1];
      assert HistEntries(h, n) == HistEntries(h, n - 1) + RowEntries(g, h.vals[g], |h.vals[g].keys|);
      PrefixExtend(HistEntries(h, i), HistEntries(h, n - 1), RowEntries(g, h.vals[g], |h.vals[g].keys|));
    }
  }

  lemma RowNext(g: ConnId, row: OMap<int>, j: nat)
    requires Valid(row) && j < |row.keys|
    ensures RowEntries(g, row, j) + [Entry(g, row.keys[j], row.vals[row.keys[j]])] <= RowEntries(g, row, |row.keys|)
  {
    var e := Entry(g, row.keys[j], row.vals[row.keys[j]]);
    assert RowEntries(g, row, j + 1) == RowEntries(g, row, j) + [e];
    RowPrefix(g, row, j + 1, |row.keys|);
  }

  lemma HistNext(h: History, i: nat)
    requires HistoryValid(h) && i < |h.keys|
    ensures HistEntries(h, i) + RowEntries(h.keys[i], h.vals[h.keys[i]], |h.vals[h.keys[i]].keys|) <= AllEntries(h)
  {
    HistPrefix(h, i + 1, |h.keys|);
  }

  /** The cell at row `i`, column `j` comes right after the cells before it, in the full scan. */
  lemma ScanPosition(h: History, i: nat, j: nat)
    requires HistoryValid(h) && i < |h.keys| && j < |h.vals[h.keys[i]].keys|
    ensures var g := h.keys[i];
      var row := h.vals[g];
      var cur := HistEntries(h, i) + RowEntries(g, row, j);
      var all := AllEntries(h);
      && |cur| < |all| && all[..|cur|] == cur && all[|cur|] == Entry(g, row.keys[j], row.vals[row.keys[j]])
  {
    var g := h.keys[i];
    var row := h.vals[g];
    var hi := HistEntries(h, i);
    var rj := RowEntries(g, row, j);
    var e := Entry(g, row.keys[j], row.vals[row.keys[j]]);
    var full := RowEntries(g, row, |row.keys|);
    RowNext(g, row, j);
    PrefixOfConcat(hi, rj + [e], full);
    assert (hi + rj) + [e] == hi + (rj + [e]);
    HistNext(h, i);
    PrefixAt(hi + rj, e, hi + full, AllEntries(h));
  }

  lemma PrefixAt<T>(cur: seq<T>, e: T, mid: seq<T>, all: seq<T>)
    requires cur + [e] <= mid && mid <= all
    ensures |cur| < |all| && all[..|cur|] == cur && all[|cur|] == e
  {
    PrefixTrans(cur + [e], mid, all);
    assert (cur + [e])[..|cur|] == cur;
  }

  lemma PrefixExtend<T>(a: seq<T>, b: seq<T>, c: seq<T>)
    requires a <= b
    ensures a <= b + c
  {
    assert (b + c)[..|a|] == b[..|a|];
  }

  lemma PrefixOfConcat<T>(a: seq<T>, b: seq<T>, c: seq<T>)
    requires b <= c
    ensures a + b <= a + c
  {
    assert (a + c)[..|a + b|] == a + c[..|b|];
  }

  lemma PrefixTrans<T>(a: seq<T>, b: seq<T>, c: seq<T>)
    requires a <= b && b <= c
    ensures a <= c && c[..|a|] == a && forall k :: 0 <= k < |a| ==> c[k] == a[k]
  {
    assert c[..|b|] == b;
    assert b[..|a|] == a;
  }

  /**
   * What the inner loop body needs about cell (`i`, `j`): its names can be
   * read if it improves a pair, and how the best and worst pairs move.
   */
  lemma ScanStep(h: History, players: OMap<Player>, i: nat, j: nat, seen: seq<Entry>, e: Entry)
    requires HistoryValid(h) && ScanSafe(AllEntries(h), players)
    requires i < |h.keys| && j < |h.vals[h.keys[i]].keys|
    requires seen == HistEntries(h, i) + RowEntries(h.keys[i], h.vals[h.keys[i]], j)
    requires e == Entry(h.keys[i], h.vals[h.keys[i]].keys[j], h.vals[h.keys[i]].vals[h.vals[h.keys[i]].keys[j]])
    ensures StepSafe(seen, e, players)
    ensures seen + [e] == HistEntries(h, i) + RowEntries(h.keys[i], h.vals[h.keys[i]], j + 1)
    ensures BestPair(seen + [e], players) == if e.points > BestPair(seen, players).score then PairOf(e, players) else BestPair(seen, players)
    ensures WorstPair(seen + [e], players) == if e.points < WorstPair(seen, players).score then PairOf(e, players) else WorstPair(seen, players)
  {
    ScanPosition(h, i, j);
    var all := AllEntries(h);
    assert StepSafe(all[..|seen|], all[|seen|], players);
    BestStep(seen, e, players);
    WorstStep(seen, e, players);
  }

  /** The inner loop finishes a row: the cells scanned so far are those of the first `i + 1` rows. */
  lemma RowDone(h: History, i: nat)
    requires HistoryValid(h) && i < |h.keys|
    ensures HistEntries(h, i) + RowEntries(h.keys[i], h.vals[h.keys[i]], 0) == HistEntries(h, i)
    ensures HistEntries(h, i) + RowEntries(h.keys[i], h.vals[h.keys[i]], |h.vals[h.keys[i]].keys|) == HistEntries(h, i + 1)
  {
    assert HistEntries(h, i) + [] == HistEntries(h, i);
  }

  /** The inner loop of endGame: the cells of row `i`, carrying the pairs found so far. */
  method ScanRow(h: History, players: OMap<Player>, i: nat, best0: Pair, worst0: Pair) returns (best: Pair, worst: Pair)
    requires HistoryValid(h) && ScanSafe(AllEntries(h), players) && i < |h.keys|
    requires best0 == BestPair(HistEntries(h, i), players) && worst0 == WorstPair(HistEntries(h, i), players)
    ensures best == BestPair(HistEntries(h, i + 1), players) && worst == WorstPair(HistEntries(h, i + 1), players)
  {
    best, worst := best0, worst0;
    var g := h.keys[i];
    var row := h.vals[g];
    RowDone(h, i);
    ghost var seen := HistEntries(h, i);
    var j := 0;
    while j < |row.keys|
      invariant 0 <= j <= |row.keys|
      invariant seen == HistEntries(h, i) + RowEntries(g, row, j)
      invariant best == BestPair(seen, players) && worst == WorstPair(seen, players)
    {
      var t := row.keys[j];
      var points := row.vals[t];
      ghost var e := Entry(g, t, points);
      ScanStep(h, players, i, j, seen, e);
      if points > best.score {
        best := Pair(players.vals[g].name + " & " + players.vals[t].name, points);
        assert best == PairOf(e, players);
      }
      if points < worst.score {
        worst := Pair(players.vals[g].name + " & " + players.vals[t].name, points);
        assert worst == PairOf(e, players);
      }
      seen := seen + [e];
      j := j + 1;
    }
  }

  /**
   * endGame's nested loops: scan every cell in key order and keep the first
   * strictly highest and the first strictly lowest; then replace a worst
   * pair still at 9999 by "None".
   */
  method ScanHistory(h: History, players: OMap<Player>) returns (best: Pair, worst: Pair)
    requires HistoryValid(h) && ScanSafe(AllEntries(h), players)
    ensures best == BestPair(AllEntries(h), players)
    ensures worst == Strangers(AllEntries(h), players)
  {
    best := NoBest;
    worst := NoWorst;
    var i := 0;
    while i < |h.keys|
      invariant 0 <= i <= |h.keys|
      invariant best == BestPair(HistEntries(h, i), players) && worst == WorstPair(HistEntries(h, i), players)
    {
      best, worst := ScanRow(h, players, i, best, worst);
      i := i + 1;
    }
    if worst.score == NoWorst.score {
      worst := NoStrangers;
    }
  }
}
