/** The queue index of `get_job_info_by_user`: every line of `qstat -u <user>` that is not
    the header and not blank is searched for `(\d+)\s+.+\s+(\S+@[\S]+)`, and a match maps
    the job id (group 1) to its queue instance (group 2). */
module QueueIndex {
  import opened Base
  import opened Text

  /** A job id as group 1 captures it: one or more decimal digits. */
  predicate IsJobId(s: string) {
    |s| > 0 && forall k :: 0 <= k < |s| ==> IsDigit(s[k])
  }

  /** A token that `\S+@[\S]+` matches in full: an '@' that is neither its first nor its
      last character. */
  predicate QueueShaped(t: string) {
    exists q | 0 < q < |t| - 1 :: t[q] == '@'
  }

  /** A queue as group 2 captures it: a whole `x@y` token, free of white space. */
  predicate IsQueue(s: string) {
    QueueShaped(s) && forall k :: 0 <= k < |s| ==> !IsSpace(s[k])
  }

  /** Position `p` starts an `x@y` token that follows white space, where `\s+(\S+@[\S]+)`
      can end the match. */
  predicate QueueTokenAt(line: string, p: int) {
    1 <= p < |line| && IsSpace(line[p - 1]) && !IsSpace(line[p]) && QueueShaped(Token(line, p))
  }

  /** The last position in `[lo, hi)` where a queue token starts: the greedy `.+` leaves the
      rightmost such token to group 2. */
  function LastQueueToken(line: string, lo: int, hi: int): (r: Option<nat>)
    requires hi <= |line|
    ensures r.Some? ==> lo <= r.value < hi && QueueTokenAt(line, r.value)
    ensures r.Some? ==> forall p :: r.value < p < hi ==> !QueueTokenAt(line, p)
    ensures r.None? ==> forall p :: lo <= p < hi ==> !QueueTokenAt(line, p)
    decreases hi - lo
  {
    if hi <= lo then None
    else if QueueTokenAt(line, hi - 1) then Some(hi - 1)
    else LastQueueToken(line, lo, hi - 1)
  }

  /** The pattern anchored at `i`. `(\d+)` takes the whole digit run and `\s+` the whole
      white-space run after it (any shorter choice leaves a digit or a space where the next
      element cannot start). Group 2 is then the last queue token that follows at least one
      character after that run; failing that, the first `\s+` gives back two characters to
      `.+\s+` and the token right after the run is tried. */
  function QueueMatchAt(line: string, i: nat): (r: Option<(string, string)>)
    ensures r.Some? ==> IsJobId(r.value.0) && IsQueue(r.value.1)
    ensures r.Some? ==> OccursAt(line, r.value.0, i) && Contains(line, r.value.1)
  {
    if i >= |line| || !IsDigit(line[i]) then None
    else
      var j := RunEnd(line, i, Digit);
      if j == |line| || !IsSpace(line[j]) then None
      else
        var k := RunEnd(line, j, Space);
        match LastQueueToken(line, k + 2, |line|)
        case Some(p) =>
          var q := Token(line, p);
          assert OccursAt(line, q, p);
          Some((line[i..j], q))
        case None =>
          if k - j >= 3 && QueueShaped(Token(line, k)) then
            var q := Token(line, k);
            assert OccursAt(line, q, k);
            Some((line[i..j], q))
          else None
  }

  /** `re.search`: the pattern tried at `i`, `i + 1`, ... until one position matches. */
  function QueueSearch(line: string, i: nat): (r: Option<(string, string)>)
    ensures r.Some? ==> IsJobId(r.value.0) && IsQueue(r.value.1)
    ensures r.Some? ==> Contains(line, r.value.0) && Contains(line, r.value.1)
    decreases |line| - i
  {
    if i >= |line| then None
    else
      match QueueMatchAt(line, i)
      case Some(m) => Some(m)
      case None => QueueSearch(line, i + 1)
  }

  /** `re.search(r'(\d+)\s+.+\s+(\S+@[\S]+)', line)` and its two groups. */
  function QueueMatch(line: string): (r: Option<(string, string)>)
    ensures r.Some? ==> IsJobId(r.value.0) && IsQueue(r.value.1)
    ensures r.Some? ==> Contains(line, r.value.0) && Contains(line, r.value.1)
  {
    QueueSearch(line, 0)
  }

  /** The header line and blank lines, which the loop skips before matching. */
  predicate IsSkipped(line: string) {
    StartsWith(line, "job-ID") || IsBlank(line)
  }

  /** What one line contributes to the index, if anything. */
  function Entry(line: string): Option<(string, string)> {
    if IsSkipped(line) then None else QueueMatch(line)
  }

  /** What each line contributes, in order. */
  function Entries(lines: seq<string>): (es: seq<Option<(string, string)>>)
    ensures |es| == |lines| && forall i :: 0 <= i < |lines| ==> es[i] == Entry(lines[i])
  {
    seq(|lines|, i requires 0 <= i < |lines| => Entry(lines[i]))
  }

  /** The entry assigns `job_info[id]`. */
  predicate Provides(e: Option<(string, string)>, id: string) {
    e.Some? && e.value.0 == id
  }

  /** The dictionary after the assignments `es`, in order: a later one overwrites. */
  function Assign(es: seq<Option<(string, string)>>): map<string, string> {
    if es == [] then map[]
    else
      var prev := Assign(es[..|es| - 1]);
      match es[|es| - 1]
      case None => prev
      case Some(e) => prev[e.0 := e.1]
  }

  /** The dictionary's key order: a key takes its place when it is first assigned. */
  function KeyOrder(es: seq<Option<(string, string)>>): seq<string> {
    if es == [] then []
    else
      var prev := KeyOrder(es[..|es| - 1]);
      match es[|es| - 1]
      case None => prev
      case Some(e) => if e.0 in prev then prev else prev + [e.0]
  }

  /** The number of assignments. */
  function AssignCount(es: seq<Option<(string, string)>>): nat {
    if es == [] then 0
    else AssignCount(es[..|es| - 1]) + (if es[|es| - 1].Some? then 1 else 0)
  }

  /** The sentinel both views show for a job the index does not know. */
  const NotFound := "未找到节点"

  /** `job_info.get(id, '未找到节点')` */
  function NodeOf(jobInfo: map<string, string>, id: string): string {
    if id in jobInfo then jobInfo[id] else NotFound
  }

  /** The index built from the lines of `qstat -u`. */
  function JobInfo(lines: seq<string>): map<string, string> {
    Assign(Entries(lines))
  }

  /** `get_job_info_by_user` once the command's output is split into lines: the index it
      builds, and the order in which its keys were inserted. */
  method BuildQueueIndex(lines: seq<string>) returns (jobInfo: map<string, string>, order: seq<string>)
    ensures jobInfo == JobInfo(lines) && order == KeyOrder(Entries(lines))
    ensures forall id :: id in jobInfo ==> IsJobId(id) && IsQueue(jobInfo[id])
    ensures forall id :: id in jobInfo <==> id in order
  {
    ghost var es := Entries(lines);
    jobInfo := map[];
    order := [];
    for i := 0 to |lines|
      invariant jobInfo == Assign(es[..i]) && order == KeyOrder(es[..i])
      invariant forall id :: id in jobInfo <==> id in order
    {
      assert es[..i + 1][..i] == es[..i];
      var line := lines[i];
      if StartsWith(line, "job-ID") || IsBlank(line) {
        continue;
      }
      var m := QueueMatch(line);
      if m.Some? {
        var (id, queue) := m.value;
        if id !in jobInfo {
          order := order + [id];
        }
        jobInfo := jobInfo[id := queue];
      }
    }
    assert es[..|lines|] == es;
    JobInfoWellFormed(lines);
  }

  /** Every key of the index is a job id and every value a queue token. */
  lemma JobInfoWellFormed(lines: seq<string>)
    ensures forall id :: id in JobInfo(lines) ==> IsJobId(id) && IsQueue(JobInfo(lines)[id])
  {
    AssignWellFormed(Entries(lines));
  }

  lemma {:induction false} AssignWellFormed(es: seq<Option<(string, string)>>)
    requires forall i :: 0 <= i < |es| && es[i].Some? ==> IsJobId(es[i].value.0) && IsQueue(es[i].value.1)
    ensures forall id :: id in Assign(es) ==> IsJobId(id) && IsQueue(Assign(es)[id])
  {
    if es != [] {
      AssignWellFormed(es[..|es| - 1]);
    }
  }

  /** The header, blank lines and lines the pattern does not match leave the index and its
      key order as they were; scanning simply goes on. */
  lemma NonMatchingLineIgnored(lines: seq<string>, line: string)
    requires IsSkipped(line) || QueueMatch(line).None?
    ensures JobInfo(lines + [line]) == JobInfo(lines)
    ensures KeyOrder(Entries(lines + [line])) == KeyOrder(Entries(lines))
  {
    var es := Entries(lines + [line]);
    assert es[..|lines|] == Entries(lines);
  }

  /** A job id is a key exactly when some entry assigns it. */
  lemma {:induction false} AssignHas(es: seq<Option<(string, string)>>, id: string)
    ensures id in Assign(es) <==> exists i :: 0 <= i < |es| && Provides(es[i], id)
  {
    if es != [] {
      var n := |es| - 1;
      AssignHas(es[..n], id);
      assert forall i :: 0 <= i < n ==> es[..n][i] == es[i];
    }
  }

  /** The value of a key is the queue of the last entry that assigns it. */
  lemma {:induction false} AssignLastWins(es: seq<Option<(string, string)>>, id: string)
    requires id in Assign(es)
    ensures exists i :: (0 <= i < |es| && es[i] == Some((id, Assign(es)[id]))
      && forall j :: i < j < |es| ==> !Provides(es[j], id))
  {
    var n := |es| - 1;
    var prefix := es[..n];
    if !Provides(es[n], id) {
      AssignLastWins(prefix, id);
      var i :| (0 <= i < n && prefix[i] == Some((id, Assign(prefix)[id]))
        && forall j :: i < j < n ==> !Provides(prefix[j], id));
      assert forall j :: 0 <= j < n ==> prefix[j] == es[j];
      assert es[i] == Some((id, Assign(es)[id]));
    }
  }

  /** The key order lists each key of the index exactly once. */
  lemma {:induction false} KeyOrderIsKeys(es: seq<Option<(string, string)>>)
    ensures forall id :: id in Assign(es) <==> id in KeyOrder(es)
    ensures forall a, b :: 0 <= a < b < |KeyOrder(es)| ==> KeyOrder(es)[a] != KeyOrder(es)[b]
  {
    if es != [] {
      KeyOrderIsKeys(es[..|es| - 1]);
    }
  }

  /** When no two entries assign the same job id, each one adds a key of its own. */
  lemma {:induction false} DistinctIdsCount(es: seq<Option<(string, string)>>)
    requires forall a, b :: 0 <= a < b < |es| && es[a].Some? && es[b].Some? ==> es[a].value.0 != es[b].value.0
    ensures |Assign(es)| == AssignCount(es)
  {
    if es != [] {
      var n := |es| - 1;
      var prefix := es[..n];
      assert forall i :: 0 <= i < n ==> prefix[i] == es[i];
      DistinctIdsCount(prefix);
      match es[n]
      case None =>
      case Some(e) =>
        AssignHas(prefix, e.0);
        assert e.0 !in Assign(prefix);
    }
  }

  /** The pattern matches at `i` when a digit run `[i, j)` is followed by exactly one white-space
      character and a queue token starts at `p`, with no queue token after it. */
  lemma QueueMatchAtRow(line: string, i: nat, j: nat, p: nat)
    requires i < j < |line| - 1 && j + 3 <= p
    requires forall k :: i <= k < j ==> IsDigit(line[k])
    requires IsSpace(line[j]) && !IsSpace(line[j + 1])
    requires QueueTokenAt(line, p)
    requires forall p' :: p < p' < |line| ==> !QueueTokenAt(line, p')
    ensures QueueMatchAt(line, i) == Some((line[i..j], Token(line, p)))
  {
    RunEndIs(line, i, Digit, j);
    RunEndIs(line, j, Space, j + 1);
    var r := LastQueueToken(line, j + 3, |line|);
    assert r == Some(p);
  }

  /** A typical `qstat -u` row: right-aligned job id, one space, the other columns, one space,
      the queue instance, and trailing columns without '@'. The job id and the queue come out. */
  lemma TypicalRow(lead: string, id: string, mid: string, queue: string, tail: string)
    requires IsBlank(lead) && IsJobId(id) && IsQueue(queue)
    requires mid != [] && !IsSpace(mid[0])
    requires '@' !in tail && (tail == [] || IsSpace(tail[0]))
    ensures QueueMatch(lead + id + " " + mid + " " + queue + tail) == Some((id, queue))
  {
    var line := lead + id + " " + mid + " " + queue + tail;
    var i0 := |lead|;
    var j := i0 + |id|;
    var p0 := j + 1 + |mid| + 1;
    var e := p0 + |queue|;
    RowLayout(lead, id, mid, queue, tail, line);
    RowMatch(line, lead, id, queue, tail, i0, j, p0, e);
  }

  /** Where the columns of a typical row sit in the line. */
  lemma RowLayout(lead: string, id: string, mid: string, queue: string, tail: string, line: string)
    requires mid != []
    requires line == lead + id + " " + mid + " " + queue + tail
    ensures |line| == |lead| + |id| + 1 + |mid| + 1 + |queue| + |tail|
    ensures line[..|lead|] == lead && line[|lead|..|lead| + |id|] == id
    ensures line[|lead| + |id|] == ' ' && line[|lead| + |id| + 1] == mid[0]
    ensures line[|lead| + |id| + 1 + |mid|] == ' '
    ensures line[|lead| + |id| + 1 + |mid| + 1..|lead| + |id| + 1 + |mid| + 1 + |queue|] == queue
    ensures line[|lead| + |id| + 1 + |mid| + 1 + |queue|..] == tail
  {
  }

  /** A line laid out as a typical row matches with its job id and its queue. */
  lemma RowMatch(line: string, lead: string, id: string, queue: string, tail: string, i0: nat, j: nat, p0: nat, e: nat)
    requires i0 == |lead| && j == i0 + |id| && j + 3 <= p0 && e == p0 + |queue| && e + |tail| == |line|
    requires IsBlank(lead) && IsJobId(id) && IsQueue(queue)
    requires '@' !in tail && (tail == [] || IsSpace(tail[0]))
    requires line[..i0] == lead && line[i0..j] == id && line[p0..e] == queue && line[e..] == tail
    requires line[j] == ' ' && !IsSpace(line[j + 1]) && line[p0 - 1] == ' '
    ensures QueueMatch(line) == Some((id, queue))
  {
    assert forall k :: 0 <= k < i0 ==> !IsDigit(line[k]) by {
      assert forall k :: 0 <= k < i0 ==> line[k] == lead[k];
    }
    assert forall k :: i0 <= k < j ==> IsDigit(line[k]) by {
      assert forall k :: i0 <= k < j ==> line[k] == id[k - i0];
    }
    assert forall k :: p0 <= k < e ==> !IsSpace(line[k]) by {
      assert forall k :: p0 <= k < e ==> line[k] == queue[k - p0];
    }
    RunEndIs(line, p0, NonSpace, e);
    assert Token(line, p0) == queue;
    assert QueueTokenAt(line, p0);
    forall p | p0 < p < |line| ensures !QueueTokenAt(line, p) {
      if p >= e {
        var t := Token(line, p);
        assert forall k :: 0 <= k < |t| ==> t[k] == tail[p + k - e];
      }
    }
    SkipNonDigits(line, 0, i0);
    QueueMatchAtRow(line, i0, j, p0);
  }

  /** Positions holding no digit cannot start a match. */
  lemma {:induction false} SkipNonDigits(line: string, i: nat, n: nat)
    requires i <= n <= |line|
    requires forall k :: i <= k < n ==> !IsDigit(line[k])
    ensures QueueSearch(line, i) == QueueSearch(line, n)
    decreases n - i
  {
    if i < n {
      SkipNonDigits(line, i + 1, n);
    }
  }

  /** The example row is its columns joined by single spaces. */
  lemma RowText(id: string, mid: string, q: string)
    requires id == "101" && mid == "..." && q == "compute@nodeA"
    ensures "" + id + " " + mid + " " + q + "" == "101 ... compute@nodeA"
  {
  }

  /** The row `101 ... compute@nodeA` yields the index entry 101 -> compute@nodeA. */
  lemma ExampleRow()
    ensures QueueMatch("101 ... compute@nodeA") == Some(("101", "compute@nodeA"))
  {
    var id, mid, q := "101", "...", "compute@nodeA";
    assert q[7] == '@';
    assert IsQueue(q);
    assert IsJobId(id);
    RowText(id, mid, q);
    TypicalRow("", id, mid, q, "");
  }

  /** The output of `qstat -u` with a header line and that row maps 101 to compute@nodeA. */
  lemma ExampleIndex(header: string, row: string)
    requires StartsWith(header, "job-ID") && HasNoBreak(header) && row == "101 ... compute@nodeA"
    ensures JobInfo(SplitLines(header + "\n" + row)) == map["101" := "compute@nodeA"]
  {
    assert HasNoBreak(row);
    SplitTwoLines(header, row);
    assert IsDigit(row[0]);
    RowNotSkipped(row);
    ExampleRow();
    HeaderThenRow(header, row, "101", "compute@nodeA");
  }

  /** A line that starts with a digit is neither the header nor blank. */
  lemma RowNotSkipped(row: string)
    requires row != [] && IsDigit(row[0])
    ensures !IsSkipped(row)
  {
    assert "job-ID"[0] == 'j';
  }

  /** A header followed by one matching row: the index holds that row's entry alone. */
  lemma HeaderThenRow(header: string, row: string, id: string, q: string)
    requires StartsWith(header, "job-ID") && !IsSkipped(row) && QueueMatch(row) == Some((id, q))
    ensures JobInfo([header, row]) == map[id := q]
  {
    var es := Entries([header, row]);
    assert es == [None, Some((id, q))];
    assert es[..1][..0] == [] && es[..1][0] == None;
    assert Assign(es[..1]) == map[];
  }
}
