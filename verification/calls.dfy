/**
 * The shape of the call log when steps are skipped in bulk: the start and
 * finish pair of each skipped step, runs of them with consecutive handles,
 * and rows of such runs for an examples table.
 */
module CallLog {
  import opened Wrappers
  import opened Lifecycle

  /** The two calls of one simulated step: its start under the scenario, then its finish. */
  function StepPair(scenario: Option<Handle>, rq: StartRequest, h: Handle, status: Status, skippedAnIssue: bool): seq<Call> {
    [Start(Under(scenario), rq, h), Finish(h, status, IssueFor(status, skippedAnIssue))]
  }

  /** The calls of steps skipped one after another under the scenario, handles from first on. */
  function SkippedPairs(scenario: Option<Handle>, rqs: seq<StartRequest>, skippedAnIssue: bool, first: nat): seq<Call> {
    if rqs == [] then []
    else
      var n := |rqs| - 1;
      SkippedPairs(scenario, rqs[..n], skippedAnIssue, first) + StepPair(scenario, rqs[n], Handle(first + n), Skipped, skippedAnIssue)
  }

  /** The number of steps in n rows of the given width (n * width). */
  function Cells(n: nat, width: nat): nat {
    if n == 0 then 0 else Cells(n - 1, width) + width
  }

  /** Cells is the product it stands for. */
  lemma {:induction false} CellsIsProduct(n: nat, width: nat)
    ensures Cells(n, width) == n * width
  {
    if n > 0 {
      CellsIsProduct(n - 1, width);
      assert (n - 1) * width + width == n * width;
    }
  }

  /** The calls of the rows' steps skipped row after row, width steps per row, handles from first on. */
  function RowPairs(scenario: Option<Handle>, table: seq<seq<StartRequest>>, width: nat, skippedAnIssue: bool, first: nat): seq<Call> {
    if table == [] then []
    else
      var n := |table| - 1;
      RowPairs(scenario, table[..n], width, skippedAnIssue, first)
        + SkippedPairs(scenario, table[n], skippedAnIssue, first + Cells(n, width))
  }

  /** One more skipped step adds its pair after those of the steps before it. */
  lemma {:induction false} SkippedPairsStep(scenario: Option<Handle>, rqs: seq<StartRequest>, pre: seq<StartRequest>, rq: StartRequest, skippedAnIssue: bool, first: nat)
    requires |rqs| == |pre| + 1 && rqs[..|pre|] == pre && rqs[|pre|] == rq
    ensures SkippedPairs(scenario, rqs, skippedAnIssue, first) ==
      SkippedPairs(scenario, pre, skippedAnIssue, first) + StepPair(scenario, rq, Handle(first + |pre|), Skipped, skippedAnIssue)
  {
  }

  /** A run of skipped steps is two calls per step. */
  lemma {:induction false} SkippedPairsLength(scenario: Option<Handle>, rqs: seq<StartRequest>, skippedAnIssue: bool, first: nat)
    ensures |SkippedPairs(scenario, rqs, skippedAnIssue, first)| == 2 * |rqs|
  {
    if rqs != [] {
      SkippedPairsLength(scenario, rqs[..|rqs| - 1], skippedAnIssue, first);
    }
  }

  /** Step s of a run of skipped steps is its start at 2s and its finish at 2s + 1. */
  lemma {:induction false} SkippedPairAt(scenario: Option<Handle>, rqs: seq<StartRequest>, skippedAnIssue: bool, first: nat, s: nat)
    requires s < |rqs|
    ensures var pairs := SkippedPairs(scenario, rqs, skippedAnIssue, first);
      && |pairs| == 2 * |rqs|
      && pairs[2 * s] == Start(Under(scenario), rqs[s], Handle(first + s))
      && pairs[2 * s + 1] == Finish(Handle(first + s), Skipped, IssueFor(Skipped, skippedAnIssue))
  {
    var n := |rqs| - 1;
    var pre := SkippedPairs(scenario, rqs[..n], skippedAnIssue, first);
    var pair := StepPair(scenario, rqs[n], Handle(first + n), Skipped, skippedAnIssue);
    SkippedPairsLength(scenario, rqs[..n], skippedAnIssue, first);
    assert SkippedPairs(scenario, rqs, skippedAnIssue, first) == pre + pair;
    if s < n {
      SkippedPairAt(scenario, rqs[..n], skippedAnIssue, first, s);
      assert rqs[..n][s] == rqs[s];
      assert (pre + pair)[2 * s] == pre[2 * s] && (pre + pair)[2 * s + 1] == pre[2 * s + 1];
    } else {
      assert (pre + pair)[2 * s] == pair[0] && (pre + pair)[2 * s + 1] == pair[1];
    }
  }

  /** One more row adds its steps' calls after those of the rows before it. */
  lemma {:induction false} RowPairsStep(scenario: Option<Handle>, table: seq<seq<StartRequest>>, pre: seq<seq<StartRequest>>, rqs: seq<StartRequest>,
                     width: nat, skippedAnIssue: bool, first: nat, next: nat)
    requires |table| == |pre| + 1 && table[..|pre|] == pre && table[|pre|] == rqs
    requires next == first + Cells(|pre|, width)
    ensures RowPairs(scenario, table, width, skippedAnIssue, first) ==
      RowPairs(scenario, pre, width, skippedAnIssue, first) + SkippedPairs(scenario, rqs, skippedAnIssue, next)
  {
  }

  /** Rows of equal width: the rows' calls number two per step and row. */
  lemma {:induction false} RowPairsLength(scenario: Option<Handle>, table: seq<seq<StartRequest>>, width: nat, skippedAnIssue: bool, first: nat)
    requires forall r :: 0 <= r < |table| ==> |table[r]| == width
    ensures |RowPairs(scenario, table, width, skippedAnIssue, first)| == 2 * Cells(|table|, width)
  {
    if table != [] {
      var n := |table| - 1;
      var pre := table[..n];
      assert forall r :: 0 <= r < n ==> pre[r] == table[r];
      RowPairsLength(scenario, pre, width, skippedAnIssue, first);
      SkippedPairsLength(scenario, table[n], skippedAnIssue, first + Cells(n, width));
      assert RowPairs(scenario, table, width, skippedAnIssue, first) ==
        RowPairs(scenario, pre, width, skippedAnIssue, first) + SkippedPairs(scenario, table[n], skippedAnIssue, first + Cells(n, width));
    }
  }

  /** Growing the number of rows never lowers the count of cells. */
  lemma {:induction false} CellsMono(a: nat, c: nat, width: nat)
    requires a <= c
    ensures Cells(a, width) <= Cells(c, width)
  {
    if a < c {
      CellsMono(a, c - 1, width);
    }
  }

  /** The last row's calls follow those of the rows before it. */
  lemma {:induction false} RowPairsSplit(scenario: Option<Handle>, table: seq<seq<StartRequest>>, width: nat, skippedAnIssue: bool, first: nat)
    requires table != []
    requires forall i :: 0 <= i < |table| ==> |table[i]| == width
    ensures var n := |table| - 1;
      var prev := RowPairs(scenario, table[..n], width, skippedAnIssue, first);
      && RowPairs(scenario, table, width, skippedAnIssue, first) == prev + SkippedPairs(scenario, table[n], skippedAnIssue, first + Cells(n, width))
      && |prev| == 2 * Cells(n, width)
  {
    RowPairsLength(scenario, table[..|table| - 1], width, skippedAnIssue, first);
  }

  /** The two calls of step s in row r of the rows' calls. */
  predicate PairAt(calls: seq<Call>, scenario: Option<Handle>, table: seq<seq<StartRequest>>, width: nat, skippedAnIssue: bool, first: nat, r: nat, s: nat)
    requires r < |table| && s < |table[r]|
  {
    var i := 2 * (Cells(r, width) + s);
    && i + 1 < |calls|
    && calls[i] == Start(Under(scenario), table[r][s], Handle(first + Cells(r, width) + s))
    && calls[i + 1] == Finish(Handle(first + Cells(r, width) + s), Skipped, IssueFor(Skipped, skippedAnIssue))
  }

  /** The steps of the last row. */
  lemma {:induction false} FanOutInLast(scenario: Option<Handle>, table: seq<seq<StartRequest>>, width: nat, skippedAnIssue: bool, first: nat, s: nat)
    requires table != [] && forall i :: 0 <= i < |table| ==> |table[i]| == width
    requires s < width
    ensures PairAt(RowPairs(scenario, table, width, skippedAnIssue, first), scenario, table, width, skippedAnIssue, first, |table| - 1, s)
  {
    var n := |table| - 1;
    var prev := RowPairs(scenario, table[..n], width, skippedAnIssue, first);
    var last := SkippedPairs(scenario, table[n], skippedAnIssue, first + Cells(n, width));
    RowPairsSplit(scenario, table, width, skippedAnIssue, first);
    SkippedPairAt(scenario, table[n], skippedAnIssue, first + Cells(n, width), s);
    var i := 2 * (Cells(n, width) + s);
    assert i == |prev| + 2 * s;
    assert (prev + last)[i] == last[2 * s] && (prev + last)[i + 1] == last[2 * s + 1];
  }

  /** The steps of an earlier row keep their place when the last row is added. */
  lemma {:induction false} FanOutInPrefix(scenario: Option<Handle>, table: seq<seq<StartRequest>>, width: nat, skippedAnIssue: bool, first: nat, r: nat, s: nat)
    requires table != [] && forall i :: 0 <= i < |table| ==> |table[i]| == width
    requires r < |table| - 1 && s < width
    requires PairAt(RowPairs(scenario, table[..|table| - 1], width, skippedAnIssue, first), scenario, table[..|table| - 1], width, skippedAnIssue, first, r, s)
    ensures PairAt(RowPairs(scenario, table, width, skippedAnIssue, first), scenario, table, width, skippedAnIssue, first, r, s)
  {
    var n := |table| - 1;
    var prev := RowPairs(scenario, table[..n], width, skippedAnIssue, first);
    var last := SkippedPairs(scenario, table[n], skippedAnIssue, first + Cells(n, width));
    RowPairsSplit(scenario, table, width, skippedAnIssue, first);
    assert table[..n][r] == table[r];
    var i := 2 * (Cells(r, width) + s);
    assert (prev + last)[i] == prev[i] && (prev + last)[i + 1] == prev[i + 1];
  }

  /**
   * Rows of equal width fan out in row-major order: the call at
   * 2 * (r * width + s) starts step s of row r and the next one
   * finishes it SKIPPED.
   */
  lemma {:induction false} FanOutAt(scenario: Option<Handle>, table: seq<seq<StartRequest>>, width: nat, skippedAnIssue: bool, first: nat, r: nat, s: nat)
    requires forall i :: 0 <= i < |table| ==> |table[i]| == width
    requires r < |table| && s < width
    ensures PairAt(RowPairs(scenario, table, width, skippedAnIssue, first), scenario, table, width, skippedAnIssue, first, r, s)
  {
    var n := |table| - 1;
    if r < n {
      FanOutAt(scenario, table[..n], width, skippedAnIssue, first, r, s);
      FanOutInPrefix(scenario, table, width, skippedAnIssue, first, r, s);
    } else {
      FanOutInLast(scenario, table, width, skippedAnIssue, first, s);
    }
  }

  /**
   * In a log that continues with the rows' calls, step s of row r (whose
   * request is rq, with `before` steps in the rows before it) is started
   * 2 * (before + s) calls past the earlier log and finished SKIPPED by
   * the next call.
   */
  lemma {:induction false} FanOutInLog(calls: seq<Call>, log: seq<Call>, tail: seq<Call>, scenario: Option<Handle>,
                                       table: seq<seq<StartRequest>>, width: nat, skippedAnIssue: bool, first: nat,
                                       r: nat, s: nat, rq: StartRequest, before: nat)
    requires forall i :: 0 <= i < |table| ==> |table[i]| == width
    requires r < |table| && s < width && table[r][s] == rq && before == Cells(r, width)
    requires calls == log + RowPairs(scenario, table, width, skippedAnIssue, first) + tail
    ensures |log| + 2 * (before + s) + 1 < |calls|
    ensures calls[|log| + 2 * (before + s)] == Start(Under(scenario), rq, Handle(first + before + s))
    ensures calls[|log| + 2 * (before + s) + 1] == Finish(Handle(first + before + s), Skipped, IssueFor(Skipped, skippedAnIssue))
  {
    var pairs := RowPairs(scenario, table, width, skippedAnIssue, first);
    var i := 2 * (before + s);
    FanOutAt(scenario, table, width, skippedAnIssue, first, r, s);
    assert calls[|log| + i] == pairs[i] && calls[|log| + i + 1] == pairs[i + 1];
  }

  /**
   * Equal arguments give equal runs of calls: stated on its own so that
   * callers compare the runs without unfolding them.
   */
  lemma {:induction false} SamePairs(a: Option<Handle>, b: Option<Handle>, rqs: seq<StartRequest>, rqs': seq<StartRequest>,
                                     x: bool, y: bool, first: nat, first': nat)
    requires a == b && rqs == rqs' && x == y && first == first'
    ensures SkippedPairs(a, rqs, x, first) == SkippedPairs(b, rqs', y, first')
  {
  }

  /**
   * A log that holds the calls of the rows before and then those of one
   * more row holds the calls of all those rows.
   */
  lemma {:induction false} RowLogStep(log: seq<Call>, mid: seq<Call>, last: seq<Call>, scenario: Option<Handle>,
                                      table: seq<seq<StartRequest>>, pre: seq<seq<StartRequest>>, rqs: seq<StartRequest>,
                                      width: nat, skippedAnIssue: bool, first: nat, next: nat)
    requires |table| == |pre| + 1 && table[..|pre|] == pre && table[|pre|] == rqs
    requires next == first + Cells(|pre|, width)
    requires mid == log + RowPairs(scenario, pre, width, skippedAnIssue, first)
    requires last == mid + SkippedPairs(scenario, rqs, skippedAnIssue, next)
    ensures last == log + RowPairs(scenario, table, width, skippedAnIssue, first)
  {
    RowPairsStep(scenario, table, pre, rqs, width, skippedAnIssue, first, next);
    assert last == log + (RowPairs(scenario, pre, width, skippedAnIssue, first) + SkippedPairs(scenario, rqs, skippedAnIssue, next));
  }
}
