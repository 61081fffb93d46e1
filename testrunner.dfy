/**
 * Collecting test results from a Business Central test page (AlTestRunner):
 * the loop that reads one JSON reply per "RunNextTest" until the page
 * reports that all tests ran, and the merge of the codeunits it returns
 * into the caller's result list, optionally grouped by codeunit.
 *
 * The client session is replaced by the sequence of values the
 * "TestResultJson" control shows, each with the codeunit JsonConvert reads
 * from it. Times are DateTime tick counts.
 */
module TestRuns {
  import opened Wrappers
  import opened Strings

  datatype TestResult = Unknown | Failure | Success | Skipped

  /** CommandLineTestToolMethod. */
  datatype TestMethod = TestMethod(
    methodName: Option<string>,
    startTime: int,
    finishTime: int,
    result: TestResult,
    message: Option<string>,
    stackTrace: Option<string>)

  /** CommandLineTestToolCodeunit. */
  datatype Codeunit = Codeunit(
    name: Option<string>,
    codeunitId: int,
    startTime: int,
    finishTime: int,
    methods: seq<TestMethod>)

  /** An entry of a test playlist: a codeunit and, optionally, one of its methods. */
  datatype PlaylistEntry = PlaylistEntry(codeunitId: int, methodName: Option<string>)

  /** One value of the result control and the codeunit deserialised from it. */
  datatype Reply = Reply(text: string, codeunit: Codeunit)

  /** "All tests executed.", lower-cased: the page's completion reply, compared ignoring case. */
  const AllTestsExecuted: string := "all tests executed."

  predicate IsSentinel(r: Reply)
  {
    Lower(r.text) == AllTestsExecuted
  }

  /** The page eventually reports that all tests ran. */
  predicate Finishes(replies: seq<Reply>)
  {
    exists i :: 0 <= i < |replies| && IsSentinel(replies[i])
  }

  /** The position of the first completion reply. */
  function SentinelIndex(replies: seq<Reply>): (k: nat)
    requires Finishes(replies)
    ensures k < |replies| && IsSentinel(replies[k])
    ensures forall j :: 0 <= j < k ==> !IsSentinel(replies[j])
  {
    if IsSentinel(replies[0]) then 0
    else
      assert Finishes(replies[1..]) by {
        var i :| 0 <= i < |replies| && IsSentinel(replies[i]);
        assert replies[1..][i - 1] == replies[i];
      }
      1 + SentinelIndex(replies[1..])
  }

  /** The codeunits of the replies before the first completion reply, in order. */
  function Collected(replies: seq<Reply>): (r: seq<Codeunit>)
    requires Finishes(replies)
    ensures |r| == SentinelIndex(replies)
    ensures forall i :: 0 <= i < |r| ==> r[i] == replies[i].codeunit && !IsSentinel(replies[i])
  {
    seq(SentinelIndex(replies), i requires 0 <= i < SentinelIndex(replies) => replies[i].codeunit)
  }

  /**
   * ExecuteTests(page): reads replies until one equals "All tests
   * executed." ignoring case, keeping the codeunit of every earlier one.
   */
  method ExecuteTests(replies: seq<Reply>) returns (responses: seq<Codeunit>)
    requires Finishes(replies)
    ensures responses == Collected(replies)
  {
    responses := [];
    var i := 0;
    while true
      invariant 0 <= i <= SentinelIndex(replies)
      invariant responses == Collected(replies)[..i]
      decreases SentinelIndex(replies) - i
    {
      var response := replies[i];
      if Lower(response.text) == AllTestsExecuted {
        break;
      }
      responses := responses + [response.codeunit];
      i := i + 1;
    }
  }

  // ---------------------------------------------------------------------
  // Merging executed codeunits into a result list

  /** results.FirstOrDefault(c => c.CodeunitId == id), as a position. */
  function FindEntry(rs: seq<Codeunit>, id: int): (r: Option<nat>)
    ensures r.Some? ==> r.value < |rs| && rs[r.value].codeunitId == id
    ensures r.Some? ==> forall j :: 0 <= j < r.value ==> rs[j].codeunitId != id
    ensures r.None? <==> forall j :: 0 <= j < |rs| ==> rs[j].codeunitId != id
  {
    if rs == [] then None
    else if rs[0].codeunitId == id then Some(0)
    else
      match FindEntry(rs[1..], id)
      case None => None
      case Some(k) => Some(k + 1)
  }

  /**
   * The entry created for a codeunit no existing entry takes. As written,
   * a new CommandLineTestToolCodeunit gets the methods only, so its name is
   * null and its CodeunitId and times stay at their defaults; keepIdentity
   * also copies the codeunit's id and name.
   */
  function FreshEntry(a: Codeunit, keepIdentity: bool): (e: Codeunit)
    ensures e.methods == a.methods && e.startTime == 0 && e.finishTime == 0
    ensures keepIdentity ==> e.codeunitId == a.codeunitId && e.name == a.name
    ensures !keepIdentity ==> e.codeunitId == 0 && e.name.None?
  {
    if keepIdentity then Codeunit(a.name, a.codeunitId, 0, 0, a.methods)
    else Codeunit(None, 0, 0, 0, a.methods)
  }

  /** Merging one executed codeunit: its methods go to the matching entry when grouping, else to a new last entry. */
  function MergeOne(rs: seq<Codeunit>, a: Codeunit, group: bool, keepIdentity: bool): (r: seq<Codeunit>)
    ensures group && FindEntry(rs, a.codeunitId).Some? ==>
      var k := FindEntry(rs, a.codeunitId).value;
      |r| == |rs| && r[k].methods == rs[k].methods + a.methods
      && r[k].codeunitId == rs[k].codeunitId && r[k].name == rs[k].name
      && forall j :: 0 <= j < |rs| && j != k ==> r[j] == rs[j]
    ensures !(group && FindEntry(rs, a.codeunitId).Some?) ==> r == rs + [FreshEntry(a, keepIdentity)]
  {
    var found := if group then FindEntry(rs, a.codeunitId) else None;
    match found
    case None => rs + [FreshEntry(a, keepIdentity)]
    case Some(k) => rs[k := rs[k].(methods := rs[k].methods + a.methods)]
  }

  /** Merging executed codeunits one after another, in order. */
  function MergeAll(rs: seq<Codeunit>, actual: seq<Codeunit>, group: bool, keepIdentity: bool): seq<Codeunit>
    decreases |actual|
  {
    if actual == [] then rs
    else MergeAll(MergeOne(rs, actual[0], group, keepIdentity), actual[1..], group, keepIdentity)
  }

  /** All methods of a result list, entry by entry. */
  function AllMethods(rs: seq<Codeunit>): seq<TestMethod>
  {
    if rs == [] then [] else rs[0].methods + AllMethods(rs[1..])
  }

  lemma {:induction false} AllMethodsAppend(xs: seq<Codeunit>, ys: seq<Codeunit>)
    ensures AllMethods(xs + ys) == AllMethods(xs) + AllMethods(ys)
    decreases |xs|
  {
    if xs == [] {
      assert xs + ys == ys;
    } else {
      assert (xs + ys)[1..] == xs[1..] + ys;
      AllMethodsAppend(xs[1..], ys);
    }
  }

  lemma {:induction false} AllMethodsExtend(rs: seq<Codeunit>, k: nat, ms: seq<TestMethod>)
    requires k < |rs|
    ensures multiset(AllMethods(rs[k := rs[k].(methods := rs[k].methods + ms)]))
      == multiset(AllMethods(rs)) + multiset(ms)
    decreases k
  {
    var r := rs[k := rs[k].(methods := rs[k].methods + ms)];
    if k > 0 {
      assert r[1..] == rs[1..][k - 1 := rs[1..][k - 1].(methods := rs[1..][k - 1].methods + ms)];
      AllMethodsExtend(rs[1..], k - 1, ms);
    } else {
      assert r[1..] == rs[1..];
    }
  }

  /** Without grouping, every executed codeunit becomes a new entry at the end, in order. */
  lemma {:induction false} UngroupedAppends(rs: seq<Codeunit>, actual: seq<Codeunit>, keepIdentity: bool)
    ensures MergeAll(rs, actual, false, keepIdentity)
      == rs + seq(|actual|, i requires 0 <= i < |actual| => FreshEntry(actual[i], keepIdentity))
    decreases |actual|
  {
    if actual != [] {
      var rest := actual[1..];
      UngroupedAppends(rs + [FreshEntry(actual[0], keepIdentity)], rest, keepIdentity);
      assert [FreshEntry(actual[0], keepIdentity)] + seq(|rest|, i requires 0 <= i < |rest| => FreshEntry(rest[i], keepIdentity))
        == seq(|actual|, i requires 0 <= i < |actual| => FreshEntry(actual[i], keepIdentity));
    }
  }

  /** Without grouping, the methods of the list are the old ones followed by the executed ones, in order. */
  lemma {:induction false} UngroupedKeepsOrder(rs: seq<Codeunit>, actual: seq<Codeunit>, keepIdentity: bool)
    ensures AllMethods(MergeAll(rs, actual, false, keepIdentity)) == AllMethods(rs) + AllMethods(actual)
    decreases |actual|
  {
    if actual != [] {
      var next := rs + [FreshEntry(actual[0], keepIdentity)];
      UngroupedKeepsOrder(next, actual[1..], keepIdentity);
      AllMethodsAppend(rs, [FreshEntry(actual[0], keepIdentity)]);
      assert AllMethods([FreshEntry(actual[0], keepIdentity)]) == actual[0].methods;
    }
  }

  /** Grouped or not, the list gains exactly the executed methods. */
  lemma {:induction false} MergeAddsMethods(rs: seq<Codeunit>, actual: seq<Codeunit>, group: bool, keepIdentity: bool)
    ensures multiset(AllMethods(MergeAll(rs, actual, group, keepIdentity)))
      == multiset(AllMethods(rs)) + multiset(AllMethods(actual))
    decreases |actual|
  {
    if actual != [] {
      var a := actual[0];
      var next := MergeOne(rs, a, group, keepIdentity);
      MergeAddsMethods(next, actual[1..], group, keepIdentity);
      MergeOneAddsMethods(rs, a, group, keepIdentity);
      assert AllMethods(actual) == a.methods + AllMethods(actual[1..]);
    }
  }

  /** One merge step gains exactly the codeunit's methods. */
  lemma MergeOneAddsMethods(rs: seq<Codeunit>, a: Codeunit, group: bool, keepIdentity: bool)
    ensures multiset(AllMethods(MergeOne(rs, a, group, keepIdentity))) == multiset(AllMethods(rs)) + multiset(a.methods)
  {
    var next := MergeOne(rs, a, group, keepIdentity);
    if group && FindEntry(rs, a.codeunitId).Some? {
      var k := FindEntry(rs, a.codeunitId).value;
      assert next == rs[k := rs[k].(methods := rs[k].methods + a.methods)];
      AllMethodsExtend(rs, k, a.methods);
    } else {
      AllMethodsAppend(rs, [FreshEntry(a, keepIdentity)]);
      assert AllMethods([FreshEntry(a, keepIdentity)]) == a.methods;
    }
  }

  /** The result count grows by exactly the number of executed methods. */
  lemma MergeCountsMethods(rs: seq<Codeunit>, actual: seq<Codeunit>, group: bool, keepIdentity: bool)
    ensures |AllMethods(MergeAll(rs, actual, group, keepIdentity))| == |AllMethods(rs)| + |AllMethods(actual)|
  {
    MergeAddsMethods(rs, actual, group, keepIdentity);
    assert |multiset(AllMethods(MergeAll(rs, actual, group, keepIdentity)))|
      == |multiset(AllMethods(rs))| + |multiset(AllMethods(actual))|;
  }

  // ---------------------------------------------------------------------
  // Grouping as written

  predicate AllUnnumbered(rs: seq<Codeunit>)
  {
    forall j :: 0 <= j < |rs| ==> rs[j].codeunitId == 0
  }

  predicate AllNumbered(actual: seq<Codeunit>)
  {
    forall i :: 0 <= i < |actual| ==> actual[i].codeunitId != 0
  }

  /**
   * As written, the entries grouping creates keep CodeunitId 0, so a later
   * codeunit never finds them: on a list the runner built itself, grouping
   * merges exactly as not grouping does.
   */
  lemma {:induction false} GroupingAsWrittenNeverGroups(rs: seq<Codeunit>, actual: seq<Codeunit>)
    requires AllUnnumbered(rs) && AllNumbered(actual)
    ensures MergeAll(rs, actual, true, false) == MergeAll(rs, actual, false, false)
    ensures AllUnnumbered(MergeAll(rs, actual, true, false))
    decreases |actual|
  {
    if actual != [] {
      assert FindEntry(rs, actual[0].codeunitId).None?;
      var next := rs + [FreshEntry(actual[0], false)];
      assert MergeOne(rs, actual[0], true, false) == next == MergeOne(rs, actual[0], false, false);
      GroupingAsWrittenNeverGroups(next, actual[1..]);
    }
  }

  /** Two runs of the same codeunit in a grouped playlist give two entries, both numbered 0. */
  lemma GroupedPlaylistSplits(first: Codeunit, second: Codeunit)
    requires first.codeunitId == second.codeunitId == 50100
    ensures MergeAll(MergeAll([], [first], true, false), [second], true, false)
      == [FreshEntry(first, false), FreshEntry(second, false)]
  {
    assert MergeAll([], [first], true, false) == [FreshEntry(first, false)];
    assert FindEntry([FreshEntry(first, false)], 50100).None?;
  }

  // ---------------------------------------------------------------------
  // Grouping that keeps the codeunit's identity

  predicate DistinctIds(rs: seq<Codeunit>)
  {
    forall i, j :: 0 <= i < j < |rs| ==> rs[i].codeunitId != rs[j].codeunitId
  }

  predicate HasEntry(rs: seq<Codeunit>, id: int)
  {
    exists j :: 0 <= j < |rs| && rs[j].codeunitId == id
  }

  /**
   * With the identity kept, grouping gives one entry per codeunit id: the
   * ids stay distinct, every executed codeunit has its entry, and earlier
   * entries keep theirs.
   */
  lemma {:induction false} GroupingKeepsOneEntryPerId(rs: seq<Codeunit>, actual: seq<Codeunit>)
    requires DistinctIds(rs)
    ensures var r := MergeAll(rs, actual, true, true);
      && DistinctIds(r)
      && (forall i :: 0 <= i < |actual| ==> HasEntry(r, actual[i].codeunitId))
      && (forall j :: 0 <= j < |rs| ==> HasEntry(r, rs[j].codeunitId))
    decreases |actual|
  {
    if actual != [] {
      var a := actual[0];
      var next := MergeOne(rs, a, true, true);
      assert DistinctIds(next);
      if FindEntry(rs, a.codeunitId).Some? {
        assert next[FindEntry(rs, a.codeunitId).value].codeunitId == a.codeunitId;
      } else {
        assert next[|rs|].codeunitId == a.codeunitId;
      }
      assert HasEntry(next, a.codeunitId);
      assert forall j :: 0 <= j < |rs| ==> next[j].codeunitId == rs[j].codeunitId;
      GroupingKeepsOneEntryPerId(next, actual[1..]);
      var r := MergeAll(next, actual[1..], true, true);
      forall j | 0 <= j < |next|
        ensures HasEntry(r, next[j].codeunitId)
      {
      }
      forall i | 0 <= i < |actual|
        ensures HasEntry(r, actual[i].codeunitId)
      {
        if i > 0 {
          assert actual[i] == actual[1..][i - 1];
        } else {
          var j :| 0 <= j < |next| && next[j].codeunitId == a.codeunitId;
        }
      }
    }
  }

  /** The result list the runner fills. */
  class ResultList {
    var entries: seq<Codeunit>

    constructor()
      ensures entries == []
    {
      entries := [];
    }

    /**
     * ExecuteTests(page, results, groupByCodeunit): each executed codeunit
     * finds its entry (the first with the same id, when grouping) or adds
     * a new one, and its methods are added to it one by one. With
     * keepIdentity false the new entry is a default one, as the code
     * creates it; with keepIdentity true it carries the codeunit's id and
     * name, as evidently intended.
     */
    method Merge(actual: seq<Codeunit>, groupByCodeunit: bool, keepIdentity: bool)
      modifies this
      ensures entries == MergeAll(old(entries), actual, groupByCodeunit, keepIdentity)
    {
      var i := 0;
      while i < |actual|
        invariant 0 <= i <= |actual|
        invariant MergeAll(entries, actual[i..], groupByCodeunit, keepIdentity)
          == MergeAll(old(entries), actual, groupByCodeunit, keepIdentity)
      {
        var a := actual[i];
        ghost var start := entries;
        var found := if groupByCodeunit then FindEntry(entries, a.codeunitId) else None;
        var k: nat;
        if found.None? {
          var blank := if keepIdentity then Codeunit(a.name, a.codeunitId, 0, 0, []) else Codeunit(None, 0, 0, 0, []);
          entries := entries + [blank];
          k := |entries| - 1;
        } else {
          k := found.value;
        }
        AddMethods(k, a.methods);
        if found.None? {
          NewEntryFilled(start, a, keepIdentity, entries);
        }
        assert entries == MergeOne(start, a, groupByCodeunit, keepIdentity);
        assert actual[i..][1..] == actual[i + 1..];
        i := i + 1;
      }
    }

    /** The inner loop of ExecuteTests: the methods are added one by one to entry k. */
    method AddMethods(k: nat, ms: seq<TestMethod>)
      requires k < |entries|
      modifies this
      ensures entries == old(entries)[k := old(entries)[k].(methods := old(entries)[k].methods + ms)]
    {
      ghost var base := entries[k];
      var m := 0;
      assert base.methods + ms[..0] == base.methods;
      while m < |ms|
        invariant 0 <= m <= |ms| && |entries| == |old(entries)|
        invariant entries[k] == base.(methods := base.methods + ms[..m])
        invariant forall j :: 0 <= j < |entries| && j != k ==> entries[j] == old(entries)[j]
      {
        assert ms[..m + 1] == ms[..m] + [ms[m]];
        entries := entries[k := entries[k].(methods := entries[k].methods + [ms[m]])];
        m := m + 1;
      }
      assert ms[..m] == ms;
    }
  }

  /** A new entry, then its methods added: the fresh entry MergeOne appends. */
  lemma NewEntryFilled(start: seq<Codeunit>, a: Codeunit, keepIdentity: bool, result: seq<Codeunit>)
    requires var blank := if keepIdentity then Codeunit(a.name, a.codeunitId, 0, 0, []) else Codeunit(None, 0, 0, 0, []);
      var grown := start + [blank];
      result == grown[|start| := grown[|start|].(methods := grown[|start|].methods + a.methods)]
    ensures result == start + [FreshEntry(a, keepIdentity)]
  {
    assert result[|start|] == FreshEntry(a, keepIdentity);
    assert forall j :: 0 <= j < |start| ==> result[j] == start[j];
  }

  /** Merging the collected codeunits of each playlist entry's run, in playlist order. */
  function Accumulate(rs: seq<Codeunit>, runs: seq<seq<Reply>>, group: bool, keepIdentity: bool): seq<Codeunit>
    requires forall i :: 0 <= i < |runs| ==> Finishes(runs[i])
    decreases |runs|
  {
    if runs == [] then rs
    else Accumulate(MergeAll(rs, Collected(runs[0]), group, keepIdentity), runs[1..], group, keepIdentity)
  }

  /** The codeunits a playlist run executed, run after run. */
  function AllCollected(runs: seq<seq<Reply>>): seq<Codeunit>
    requires forall i :: 0 <= i < |runs| ==> Finishes(runs[i])
    decreases |runs|
  {
    if runs == [] then [] else Collected(runs[0]) + AllCollected(runs[1..])
  }

  lemma {:induction false} MergeAllAppend(rs: seq<Codeunit>, xs: seq<Codeunit>, ys: seq<Codeunit>, group: bool, keepIdentity: bool)
    ensures MergeAll(rs, xs + ys, group, keepIdentity) == MergeAll(MergeAll(rs, xs, group, keepIdentity), ys, group, keepIdentity)
    decreases |xs|
  {
    if xs == [] {
      assert xs + ys == ys;
    } else {
      assert (xs + ys)[1..] == xs[1..] + ys;
      MergeAllAppend(MergeOne(rs, xs[0], group, keepIdentity), xs[1..], ys, group, keepIdentity);
    }
  }

  /** A playlist run is one merge of all the codeunits its entries executed, in playlist order. */
  lemma {:induction false} AccumulateIsOneMerge(rs: seq<Codeunit>, runs: seq<seq<Reply>>, group: bool, keepIdentity: bool)
    requires forall i :: 0 <= i < |runs| ==> Finishes(runs[i])
    ensures Accumulate(rs, runs, group, keepIdentity) == MergeAll(rs, AllCollected(runs), group, keepIdentity)
    decreases |runs|
  {
    if runs != [] {
      AccumulateIsOneMerge(MergeAll(rs, Collected(runs[0]), group, keepIdentity), runs[1..], group, keepIdentity);
      MergeAllAppend(rs, Collected(runs[0]), AllCollected(runs[1..]), group, keepIdentity);
    }
  }

  /**
   * As written, grouping a playlist by codeunit changes nothing: starting
   * from a list the runner built itself (the empty one included), when
   * every executed codeunit has a non-zero id the grouped result list is
   * the ungrouped one.
   */
  lemma PlaylistAsWrittenNeverGroups(rs: seq<Codeunit>, runs: seq<seq<Reply>>)
    requires forall i :: 0 <= i < |runs| ==> Finishes(runs[i])
    requires AllUnnumbered(rs) && AllNumbered(AllCollected(runs))
    ensures Accumulate(rs, runs, true, false) == Accumulate(rs, runs, false, false)
  {
    GroupingAsWrittenNeverGroups(rs, AllCollected(runs));
    AccumulateIsOneMerge(rs, runs, true, false);
    AccumulateIsOneMerge(rs, runs, false, false);
  }

  /**
   * RunTests(suiteName, playlist, groupByCodeunit): one result list for
   * the whole playlist; runs[i] is what the page answers once the filters
   * of playlist[i] are set. New entries are default ones, as the code
   * creates them, so every entry has id 0 and no name.
   */
  method RunPlaylist(playlist: seq<PlaylistEntry>, runs: seq<seq<Reply>>, groupByCodeunit: bool) returns (results: seq<Codeunit>)
    requires |runs| == |playlist|
    requires forall i :: 0 <= i < |runs| ==> Finishes(runs[i])
    ensures results == Accumulate([], runs, groupByCodeunit, false)
    ensures multiset(AllMethods(results)) == multiset(AllMethods(AllCollected(runs)))
  {
    var list := new ResultList();
    var i := 0;
    while i < |playlist|
      invariant 0 <= i <= |playlist|
      invariant Accumulate(list.entries, runs[i..], groupByCodeunit, false) == Accumulate([], runs, groupByCodeunit, false)
    {
      var actual := ExecuteTests(runs[i]);
      list.Merge(actual, groupByCodeunit, false);
      assert runs[i..][1..] == runs[i + 1..];
      i := i + 1;
    }
    results := list.entries;
    AccumulateIsOneMerge([], runs, groupByCodeunit, false);
    MergeAddsMethods([], AllCollected(runs), groupByCodeunit, false);
  }
}
