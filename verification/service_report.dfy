/**
 * The final report of the queue simulation (LW_A_1): one entry per agent,
 * ordered by clients served (descending), ties by work time (ascending).
 */
module ServiceReport {

  datatype ReportEntry = ReportEntry(id: int, servedCount: int, totalTime: real)

  /**
   * The report comparator: a comes strictly before b when it served more
   * clients, or as many with less total work time.
   */
  predicate ReportBefore(a: ReportEntry, b: ReportEntry)
    ensures a.servedCount > b.servedCount ==> ReportBefore(a, b)
    ensures a.servedCount < b.servedCount ==> !ReportBefore(a, b)
    ensures a.servedCount == b.servedCount ==> (ReportBefore(a, b) <==> a.totalTime < b.totalTime)
  {
    if a.servedCount != b.servedCount then a.servedCount > b.servedCount
    else a.totalTime < b.totalTime
  }

  /** No entry comes strictly before an entry placed ahead of it. */
  predicate ReportSorted(r: seq<ReportEntry>)
  {
    forall i, j :: 0 <= i < j < |r| ==> !ReportBefore(r[j], r[i])
  }

  /** The comparator is a strict weak order: irreflexive, asymmetric, transitive. */
  lemma ReportBeforeStrictOrder(a: ReportEntry, b: ReportEntry, c: ReportEntry)
    ensures !ReportBefore(a, a)
    ensures ReportBefore(a, b) ==> !ReportBefore(b, a)
    ensures ReportBefore(a, b) && ReportBefore(b, c) ==> ReportBefore(a, c)
    ensures !ReportBefore(a, b) && !ReportBefore(b, c) ==> !ReportBefore(a, c)
  {
  }

  /** In a sorted report the served counts never increase, and equal counts have non-decreasing times. */
  lemma SortedMeansOrdered(r: seq<ReportEntry>, i: int, j: int)
    requires ReportSorted(r)
    requires 0 <= i < j < |r|
    ensures r[i].servedCount >= r[j].servedCount
    ensures r[i].servedCount == r[j].servedCount ==> r[i].totalTime <= r[j].totalTime
  {
    assert !ReportBefore(r[j], r[i]);
  }

  /** Putting x ahead of a sorted report keeps it sorted when no entry of it comes strictly before x. */
  lemma SortedCons(x: ReportEntry, r: seq<ReportEntry>)
    requires ReportSorted(r)
    requires forall y :: y in r ==> !ReportBefore(y, x)
    ensures ReportSorted([x] + r)
  {
    var s := [x] + r;
    forall i, j | 0 <= i < j < |s| ensures !ReportBefore(s[j], s[i]) {
      if i > 0 {
        assert s[i] == r[i - 1] && s[j] == r[j - 1];
      } else {
        assert s[j] in r;
      }
    }
  }

  /** Inserts e into a sorted report ahead of the first entry that does not come strictly before it. */
  function InsertEntry(e: ReportEntry, r: seq<ReportEntry>): (r': seq<ReportEntry>)
    requires ReportSorted(r)
    ensures ReportSorted(r')
    ensures multiset(r') == multiset(r) + multiset{e}
  {
    if r == [] then [e]
    else if !ReportBefore(r[0], e) then
      assert forall y :: y in r ==> !ReportBefore(y, e) by {
        forall y | y in r ensures !ReportBefore(y, e) {
          var j :| 0 <= j < |r| && r[j] == y;
          assert j > 0 ==> !ReportBefore(r[j], r[0]);
        }
      }
      SortedCons(e, r);
      [e] + r
    else
      var tail := InsertEntry(e, r[1..]);
      assert r == [r[0]] + r[1..];
      assert forall y :: y in tail ==> !ReportBefore(y, r[0]) by {
        forall y | y in tail ensures !ReportBefore(y, r[0]) {
          assert y in multiset(tail);
          if y != e {
            assert y in multiset(r[1..]);
            var j :| 0 <= j < |r[1..]| && r[1..][j] == y;
            assert r[j + 1] == y;
          }
        }
      }
      SortedCons(r[0], tail);
      [r[0]] + tail
  }

  /** The report order applied to the collected entries (std::sort, not stable). */
  function SortReport(entries: seq<ReportEntry>): (r: seq<ReportEntry>)
    ensures ReportSorted(r)
    ensures multiset(r) == multiset(entries)
  {
    if entries == [] then []
    else
      assert entries == [entries[0]] + entries[1..];
      InsertEntry(entries[0], SortReport(entries[1..]))
  }
}
