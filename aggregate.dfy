/**
 * The outcome loop at the end of `main` in playlist.py: the outcomes of the
 * downloads arrive in whatever order `as_completed` yields them, the loop
 * counts successes and failures and collects `(idx, url, msg)` for every
 * failure, and the failures are printed sorted.
 *
 * The loop as written looks the failed URL up as `tasks[idx - 1]`, which is
 * the task's own URL only when the task numbers have no gaps. The model keeps
 * that lookup as `FailedUrlAsWritten`, shows where it goes wrong, and the
 * aggregator takes the URL of the task whose download produced the outcome.
 */
module Aggregate {
  import opened Wrappers
  import opened Worklist
  import opened Download

  /** One entry of the failure report: `(idx, url, msg)`. */
  datatype FailedItem = FailedItem(index: nat, url: string, msg: string)

  function Positions(n: nat): (r: seq<nat>)
    ensures |r| == n && forall k :: 0 <= k < n ==> r[k] == k
  {
    seq(n, k => k)
  }

  /** An order in which `as_completed` can hand back the downloads: every task position exactly once. */
  predicate IsCompletionOrder(order: seq<nat>, n: nat) {
    multiset(order) == multiset(Positions(n))
  }

  predicate InRange(order: seq<nat>, n: nat) {
    forall k :: 0 <= k < |order| ==> order[k] < n
  }

  lemma CompletionOrderInRange(order: seq<nat>, n: nat)
    requires IsCompletionOrder(order, n)
    ensures |order| == n && InRange(order, n)
  {
    assert |multiset(order)| == |multiset(Positions(n))|;
    forall k | 0 <= k < |order|
      ensures order[k] < n
    {
      assert order[k] in multiset(order);
      assert order[k] in multiset(Positions(n));
    }
  }

  /** The report entry for the task at `pos`, when its download failed. */
  function FailureOf(tasks: seq<Task>, results: seq<Outcome>, pos: nat): seq<FailedItem>
    requires |results| == |tasks| && pos < |tasks|
  {
    if results[pos].ok then [] else [FailedItem(results[pos].index, tasks[pos].url, results[pos].msg)]
  }

  /** The failures collected while draining the downloads in the given order. */
  function FailedAt(tasks: seq<Task>, results: seq<Outcome>, order: seq<nat>): seq<FailedItem>
    requires |results| == |tasks| && InRange(order, |tasks|)
  {
    if order == [] then []
    else FailedAt(tasks, results, order[..|order| - 1]) + FailureOf(tasks, results, order[|order| - 1])
  }

  /** The successes counted while draining the downloads in the given order. */
  function OkCount(results: seq<Outcome>, order: seq<nat>): nat
    requires InRange(order, |results|)
  {
    if order == [] then 0
    else OkCount(results, order[..|order| - 1]) + (if results[order[|order| - 1]].ok then 1 else 0)
  }

  /**
   * The loop over `as_completed(futs)`: `results[k]` is the outcome of
   * `tasks[k]` and `order` the order in which the downloads finish.
   */
  method AggregateOutcomes(tasks: seq<Task>, results: seq<Outcome>, order: seq<nat>)
      returns (successes: nat, failures: nat, failed: seq<FailedItem>)
    requires |results| == |tasks|
    requires IsCompletionOrder(order, |tasks|)
    ensures InRange(order, |tasks|)
    ensures successes == OkCount(results, order)
    ensures failed == FailedAt(tasks, results, order)
    ensures failures == |failed|
    ensures successes + failures == |tasks|
  {
    CompletionOrderInRange(order, |tasks|);
    successes, failures, failed := 0, 0, [];
    for k := 0 to |order|
      invariant successes == OkCount(results, order[..k])
      invariant failed == FailedAt(tasks, results, order[..k])
      invariant failures == |failed|
      invariant successes + failures == k
    {
      assert order[..k + 1][..k] == order[..k];
      var pos := order[k];
      var o := results[pos];
      if o.ok {
        successes := successes + 1;
      } else {
        failures := failures + 1;
        failed := failed + [FailedItem(o.index, tasks[pos].url, o.msg)];
      }
    }
    assert order[..|order|] == order;
  }

  // ------------------------------------------------------------ sorted report

  predicate SortedByIndex(s: seq<FailedItem>) {
    forall i, j :: 0 <= i < j < |s| ==> s[i].index <= s[j].index
  }

  predicate StrictlySortedByIndex(s: seq<FailedItem>) {
    forall i, j :: 0 <= i < j < |s| ==> s[i].index < s[j].index
  }

  /** Puts `x` before the first element whose number is not smaller. */
  function Insert(x: FailedItem, s: seq<FailedItem>): (r: seq<FailedItem>)
    ensures |r| == |s| + 1 && multiset(r) == multiset(s) + multiset{x}
  {
    if s == [] then [x]
    else if x.index <= s[0].index then [x] + s
    else
      assert s == [s[0]] + s[1..];
      [s[0]] + Insert(x, s[1..])
  }

  lemma {:induction false} InsertSorted(x: FailedItem, s: seq<FailedItem>)
    requires SortedByIndex(s)
    ensures SortedByIndex(Insert(x, s))
    ensures Insert(x, s)[0] == x || (s != [] && Insert(x, s)[0] == s[0])
    decreases |s|
  {
    if s != [] && x.index > s[0].index {
      var t := Insert(x, s[1..]);
      InsertSorted(x, s[1..]);
      ConsSorted(s[0], t);
    }
  }

  lemma ConsSorted(x: FailedItem, t: seq<FailedItem>)
    requires SortedByIndex(t) && (t != [] ==> x.index <= t[0].index)
    ensures SortedByIndex([x] + t)
  {
    var r := [x] + t;
    forall i, j | 0 <= i < j < |r|
      ensures r[i].index <= r[j].index
    {
      if i > 0 {
        assert r[i] == t[i - 1] && r[j] == t[j - 1];
      } else {
        assert r[j] == t[j - 1];
      }
    }
  }

  /** `sorted(failed_items)`: the report sorted by task number. */
  function SortByIndex(s: seq<FailedItem>): (r: seq<FailedItem>)
    ensures SortedByIndex(r) && multiset(r) == multiset(s)
  {
    if s == [] then []
    else
      assert s == [s[0]] + s[1..];
      var t := SortByIndex(s[1..]);
      InsertSorted(s[0], t);
      Insert(s[0], t)
  }

  /** A sorted list and a strictly sorted list with the same elements are the same list. */
  lemma {:induction false} SortedUnique(a: seq<FailedItem>, b: seq<FailedItem>)
    requires SortedByIndex(a) && StrictlySortedByIndex(b) && multiset(a) == multiset(b)
    ensures a == b
    decreases |a|
  {
    if a == [] {
      assert |multiset(b)| == 0;
    } else {
      assert |multiset(b)| == |a|;
      assert a[0] in multiset(b) && b[0] in multiset(a);
      var j :| 0 <= j < |b| && b[j] == a[0];
      var i :| 0 <= i < |a| && a[i] == b[0];
      assert a[0].index <= b[0].index <= b[j].index;
      assert j == 0;
      MultisetTail(a, b);
      SortedUnique(a[1..], b[1..]);
    }
  }

  lemma MultisetTail<T>(a: seq<T>, b: seq<T>)
    requires a != [] && b != [] && a[0] == b[0] && multiset(a) == multiset(b)
    ensures multiset(a[1..]) == multiset(b[1..])
  {
    assert a == [a[0]] + a[1..] && b == [b[0]] + b[1..];
    calc {
      multiset(a[1..]);
      multiset(a) - multiset{a[0]};
      multiset(b) - multiset{b[0]};
      multiset(b[1..]);
    }
  }

  // -------------------------------------------------------------- properties

  lemma InRangeConcat(a: seq<nat>, b: seq<nat>, n: nat)
    requires InRange(a, n) && InRange(b, n)
    ensures InRange(a + b, n)
  {
  }

  lemma {:induction false} FailedAtConcat(tasks: seq<Task>, results: seq<Outcome>, a: seq<nat>, b: seq<nat>)
    requires |results| == |tasks| && InRange(a, |tasks|) && InRange(b, |tasks|)
    ensures InRange(a + b, |tasks|)
    ensures FailedAt(tasks, results, a + b) == FailedAt(tasks, results, a) + FailedAt(tasks, results, b)
    decreases |b|
  {
    InRangeConcat(a, b, |tasks|);
    if b == [] {
      assert a + b == a;
    } else {
      var c := b[..|b| - 1];
      assert (a + b)[..|a + b| - 1] == a + c;
      FailedAtConcat(tasks, results, a, c);
    }
  }

  /** Every download is counted once: as a success or as a report entry. */
  lemma {:induction false} OkPlusFailed(tasks: seq<Task>, results: seq<Outcome>, order: seq<nat>)
    requires |results| == |tasks| && InRange(order, |tasks|)
    ensures OkCount(results, order) + |FailedAt(tasks, results, order)| == |order|
    decreases |order|
  {
    if order != [] {
      OkPlusFailed(tasks, results, order[..|order| - 1]);
    }
  }

  lemma FailedAtSplit(tasks: seq<Task>, results: seq<Outcome>, b1: seq<nat>, x: nat, b2: seq<nat>)
    requires |results| == |tasks| && InRange(b1, |tasks|) && x < |tasks| && InRange(b2, |tasks|)
    ensures InRange(b1 + [x] + b2, |tasks|) && InRange(b1 + b2, |tasks|)
    ensures FailedAt(tasks, results, b1 + [x] + b2) ==
      FailedAt(tasks, results, b1) + FailureOf(tasks, results, x) + FailedAt(tasks, results, b2)
    ensures FailedAt(tasks, results, b1 + b2) == FailedAt(tasks, results, b1) + FailedAt(tasks, results, b2)
  {
    FailedAtConcat(tasks, results, b1, [x]);
    assert (b1 + [x])[..|b1|] == b1;
    FailedAtConcat(tasks, results, b1 + [x], b2);
    FailedAtConcat(tasks, results, b1, b2);
  }

  /** Taking position `j` out of an order takes its entry, if any, out of the report. */
  lemma FailedAtRemove(tasks: seq<Task>, results: seq<Outcome>, b: seq<nat>, j: nat)
    requires |results| == |tasks| && InRange(b, |tasks|) && j < |b|
    ensures InRange(b[..j] + b[j + 1..], |tasks|)
    ensures multiset(FailedAt(tasks, results, b)) ==
      multiset(FailedAt(tasks, results, b[..j] + b[j + 1..])) + multiset(FailureOf(tasks, results, b[j]))
  {
    var b1, x, b2 := b[..j], b[j], b[j + 1..];
    assert b == b1 + [x] + b2;
    FailedAtSplit(tasks, results, b1, x, b2);
  }

  lemma MultisetRemove(a: seq<nat>, b: seq<nat>, j: nat)
    requires multiset(a) == multiset(b) && a != [] && j < |b| && b[j] == a[|a| - 1]
    ensures multiset(a[..|a| - 1]) == multiset(b[..j] + b[j + 1..])
  {
    var a', x := a[..|a| - 1], a[|a| - 1];
    var b1, b2 := b[..j], b[j + 1..];
    assert a == a' + [x];
    assert b == b1 + [x] + b2;
    assert multiset(a) == multiset(a') + multiset{x};
    assert multiset(b) == multiset(b1 + b2) + multiset{x} by {
      assert multiset(b) == multiset(b1) + multiset{x} + multiset(b2);
    }
    calc {
      multiset(a');
      multiset(a) - multiset{x};
      multiset(b) - multiset{x};
      multiset(b1 + b2);
    }
  }

  /** Reordering the downloads reorders the report entries and nothing more. */
  lemma {:induction false} FailedAtPermutation(tasks: seq<Task>, results: seq<Outcome>, a: seq<nat>, b: seq<nat>)
    requires |results| == |tasks| && InRange(a, |tasks|) && InRange(b, |tasks|)
    requires multiset(a) == multiset(b)
    ensures multiset(FailedAt(tasks, results, a)) == multiset(FailedAt(tasks, results, b))
    decreases |a|
  {
    if a == [] {
      assert |multiset(b)| == 0;
    } else {
      var x := a[|a| - 1];
      assert x in multiset(b);
      var j :| 0 <= j < |b| && b[j] == x;
      MultisetRemove(a, b, j);
      FailedAtRemove(tasks, results, b, j);
      FailedAtPermutation(tasks, results, a[..|a| - 1], b[..j] + b[j + 1..]);
    }
  }

  /** The report entry the task at `pos` would give. */
  function EntryFor(tasks: seq<Task>, results: seq<Outcome>, pos: nat): FailedItem
    requires |results| == |tasks| && pos < |tasks|
  {
    FailedItem(results[pos].index, tasks[pos].url, results[pos].msg)
  }

  /** Each report entry is that of a failed download, with that task's own URL. */
  lemma {:induction false} FailedAtEntries(tasks: seq<Task>, results: seq<Outcome>, order: seq<nat>)
    requires |results| == |tasks| && InRange(order, |tasks|)
    ensures forall item :: item in FailedAt(tasks, results, order) ==>
      (exists pos :: 0 <= pos < |tasks| && !results[pos].ok && item == EntryFor(tasks, results, pos))
    decreases |order|
  {
    if order != [] {
      FailedAtEntries(tasks, results, order[..|order| - 1]);
    }
  }

  /** `results[k]` is the outcome of `tasks[k]`, and the tasks are numbered increasingly. */
  predicate Matched(tasks: seq<Task>, results: seq<Outcome>) {
    && |results| == |tasks|
    && IncreasingIndices(tasks)
    && forall k :: 0 <= k < |tasks| ==> results[k].index == tasks[k].index
  }

  /** In task order the report is strictly sorted by task number. */
  lemma {:induction false} FailedInTaskOrderSorted(tasks: seq<Task>, results: seq<Outcome>, n: nat)
    requires Matched(tasks, results) && n <= |tasks|
    ensures InRange(Positions(n), |tasks|)
    ensures StrictlySortedByIndex(FailedAt(tasks, results, Positions(n)))
    ensures forall i :: 0 <= i < |FailedAt(tasks, results, Positions(n))| ==>
      exists k :: 0 <= k < n && FailedAt(tasks, results, Positions(n))[i].index == tasks[k].index
    decreases n
  {
    if n > 0 {
      var init := Positions(n - 1);
      assert Positions(n)[..n - 1] == init;
      FailedInTaskOrderSorted(tasks, results, n - 1);
      var p := FailedAt(tasks, results, init);
      forall i | 0 <= i < |p|
        ensures p[i].index < tasks[n - 1].index
      {
        var k :| 0 <= k < n - 1 && p[i].index == tasks[k].index;
      }
    }
  }

  /**
   * Whatever order the downloads finish in, the counts are the same and the
   * sorted report is the list of failures in playlist order.
   */
  lemma ReportIndependentOfOrder(tasks: seq<Task>, results: seq<Outcome>, order: seq<nat>)
    requires Matched(tasks, results)
    requires IsCompletionOrder(order, |tasks|)
    ensures InRange(order, |tasks|) && InRange(Positions(|tasks|), |tasks|)
    ensures OkCount(results, order) == OkCount(results, Positions(|tasks|))
    ensures SortByIndex(FailedAt(tasks, results, order)) == FailedAt(tasks, results, Positions(|tasks|))
  {
    var n := |tasks|;
    CompletionOrderInRange(order, n);
    FailedInTaskOrderSorted(tasks, results, n);
    var id := Positions(n);
    FailedAtPermutation(tasks, results, order, id);
    var f, g := FailedAt(tasks, results, order), FailedAt(tasks, results, id);
    assert |f| == |g| by {
      assert |multiset(f)| == |multiset(g)|;
    }
    OkPlusFailed(tasks, results, order);
    OkPlusFailed(tasks, results, id);
    SortedUnique(SortByIndex(f), g);
  }

  // ------------------------------------------------------- the lookup as written

  /** Python's `xs[i]` on the task list, for the URL; `None` is `IndexError`. */
  function UrlAt(tasks: seq<Task>, i: int): Option<string> {
    if 0 <= i < |tasks| then Some(tasks[i].url)
    else if -|tasks| <= i < 0 then Some(tasks[|tasks| + i].url)
    else None
  }

  /** `tasks[idx - 1][1]`, the URL the loop as written reports for failed task `idx`. */
  function FailedUrlAsWritten(tasks: seq<Task>, idx: nat): Option<string> {
    UrlAt(tasks, idx - 1)
  }

  /**
   * A playlist whose first entry has neither URL nor id: task 2's failure is
   * reported with task 3's URL, and task 3's failure raises `IndexError`.
   */
  lemma FailedUrlAsWrittenMisreports()
    ensures var tasks := TasksOf([Entry(None, None), Entry(Some("A"), None), Entry(Some("B"), None)]);
      && tasks == [Task(2, "A"), Task(3, "B")]
      && FailedUrlAsWritten(tasks, 2) == Some("B")
      && FailedUrlAsWritten(tasks, 3) == None
  {
    var e := [Entry(None, None), Entry(Some("A"), None), Entry(Some("B"), None)];
    var e1, e2 := e[..1], e[..2];
    assert e1[..0] == [] && e2[..1] == e1 && e[..2] == e2;
    assert TasksOf(e1) == [];
    assert TasksOf(e2) == [Task(2, "A")];
  }

  /** Without gaps in the numbering the lookup as written finds the task's own URL. */
  lemma FailedUrlAsWrittenContiguous(tasks: seq<Task>, j: nat)
    requires forall k :: 0 <= k < |tasks| ==> tasks[k].index == k + 1
    requires j < |tasks|
    ensures FailedUrlAsWritten(tasks, tasks[j].index) == Some(tasks[j].url)
  {
  }

  /** Every report entry carries the URL of the task with that number. */
  lemma ReportUrlsCorrect(tasks: seq<Task>, results: seq<Outcome>, order: seq<nat>)
    requires Matched(tasks, results) && InRange(order, |tasks|)
    ensures forall item :: item in FailedAt(tasks, results, order) ==>
      exists k :: 0 <= k < |tasks| && tasks[k].index == item.index && tasks[k].url == item.url
  {
    FailedAtEntries(tasks, results, order);
  }
}
