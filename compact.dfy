/** The compact view of `qstat -j` output (`format_qstat_output` without `--detail`): a
    single `item` record is updated line by line by the first of five patterns that
    matches, and is printed as six console lines at every separator line once it holds a
    job id, and once more at the end. */
module Compact {
  import opened Base
  import opened Text
  import opened Timestamp
  import opened QueueIndex

  /** The five patterns, in the order the `if/elif` chain tries them. */
  datatype Pattern = JobNumber | JobName | Usage | SubmissionTime | JobArgs

  function Rank(p: Pattern): nat {
    match p
    case JobNumber => 0
    case JobName => 1
    case Usage => 2
    case SubmissionTime => 3
    case JobArgs => 4
  }

  /** The literal text each pattern starts with. */
  function Keyword(p: Pattern): string {
    match p
    case JobNumber => "job_number:"
    case JobName => "job_name:"
    case Usage => "usage"
    case SubmissionTime => "submission_time:"
    case JobArgs => "job_args:"
  }

  /** The item key each pattern stores its group under. */
  function FieldKey(p: Pattern): string {
    match p
    case JobNumber => "job_id"
    case JobName => "job_name"
    case Usage => "usage"
    case SubmissionTime => "submit_time"
    case JobArgs => "shell"
  }

  /** The placeholder the scanner would store for a missing group, and which it
      does not try to parse as a timestamp. */
  const Unknown := "未知"

  /** `\s+(.+)` from `a` to the end of a line: after the longest white-space run the
      group is the rest of the line; when the run reaches the end of the line, the run
      gives back its last character to the group, which needs a run of two. */
  function RestAfterSpace(line: string, a: nat): (r: Option<string>)
    requires a <= |line|
    ensures r.Some? ==> r.value != [] && |r.value| <= |line| - a - 1 && r.value == line[|line| - |r.value|..]
    ensures r.Some? ==> IsBlank(line[a..|line| - |r.value|]) && (!IsSpace(r.value[0]) || IsBlank(line[a..]))
    ensures r.None? <==> (a == |line| || !IsSpace(line[a]) || (a == |line| - 1))
  {
    var w := RunEnd(line, a, Space);
    if w == a then None
    else if w < |line| then Some(line[w..])
    else if w - a >= 2 then Some(line[|line| - 1..])
    else None
  }

  /** The largest index in `[lo, hi)` holding white space. */
  function LastSpace(line: string, lo: nat, hi: nat): (r: Option<nat>)
    requires hi <= |line|
    ensures r.Some? ==> lo <= r.value < hi && IsSpace(line[r.value])
    ensures r.Some? ==> forall k :: r.value < k < hi ==> !IsSpace(line[k])
    ensures r.None? ==> forall k :: lo <= k < hi ==> !IsSpace(line[k])
    decreases hi
  {
    if hi <= lo then None
    else if IsSpace(line[hi - 1]) then Some(hi - 1)
    else LastSpace(line, lo, hi - 1)
  }

  /** `\s+(\d+)` from `a`: the longest digit run after the longest white-space run. */
  function DigitsAfterSpace(line: string, a: nat): (r: Option<string>)
    requires a <= |line|
    ensures r.Some? ==> IsJobId(r.value)
    ensures r.Some? ==> exists w :: a < w <= |line| - |r.value| && IsBlank(line[a..w]) && line[w..w + |r.value|] == r.value
  {
    var w := RunEnd(line, a, Space);
    if w == a || w == |line| || !IsDigit(line[w]) then None
    else
      var e := RunEnd(line, w, Digit);
      assert IsBlank(line[a..w]) && line[w..w + (e - w)] == line[w..e];
      Some(line[w..e])
  }

  /** `\s+(\S+)` from `a`: the longest non-space run after the longest white-space run. */
  function TokenAfterSpace(line: string, a: nat): (r: Option<string>)
    requires a <= |line|
    ensures r.Some? ==> r.value != [] && forall k :: 0 <= k < |r.value| ==> !IsSpace(r.value[k])
    ensures r.Some? ==> exists w :: a < w <= |line| - |r.value| && IsBlank(line[a..w]) && line[w..w + |r.value|] == r.value
  {
    var w := RunEnd(line, a, Space);
    if w == a || w == |line| then None
    else
      var e := RunEnd(line, w, NonSpace);
      assert IsBlank(line[a..w]) && line[w..w + (e - w)] == line[w..e];
      Some(line[w..e])
  }

  /** `.+\s+(.+)` from `a`: the greedy `.+` ends at the last white space that leaves one
      character for the group, so the group is everything after that white space. */
  function AfterLastSpace(line: string, a: nat): (r: Option<string>)
    requires a <= |line|
    ensures r.Some? ==> r.value != [] && |r.value| <= |line| - a - 2 && r.value == line[|line| - |r.value|..]
    ensures r.Some? ==> IsSpace(line[|line| - |r.value| - 1]) && forall k :: |line| - |r.value| <= k < |line| - 1 ==> !IsSpace(line[k])
    ensures r.None? <==> forall k :: a + 1 <= k < |line| - 1 ==> !IsSpace(line[k])
  {
    if |line| < a + 2 then None
    else
      match LastSpace(line, a + 1, |line| - 1)
      case None => None
      case Some(q) => Some(line[q + 1..])
  }

  /** Whether the pattern matches with its keyword at index `i`, and its group then.
      Lines come from `splitlines`, so `.` matches every character of a line. */
  function FieldMatchAt(line: string, i: nat, p: Pattern): Option<string>
    requires i <= |line|
  {
    if !OccursAt(line, Keyword(p), i) then None
    else
      var a := i + |Keyword(p)|;
      match p
      case JobNumber => DigitsAfterSpace(line, a)
      case JobName => TokenAfterSpace(line, a)
      case Usage =>
        var w := RunEnd(line, a, Space);
        if w == a || !OccursAt(line, "1:", w) then None else RestAfterSpace(line, w + 2)
      case SubmissionTime => RestAfterSpace(line, a)
      case JobArgs => AfterLastSpace(line, a)
  }

  /** A match holds the keyword at its index and a non-empty group: digits for
      job_number, a token free of white space for job_name. */
  lemma FieldMatchAtSpec(line: string, i: nat, p: Pattern)
    requires i <= |line|
    ensures var r := FieldMatchAt(line, i, p); r.Some? ==> OccursAt(line, Keyword(p), i) && r.value != []
    ensures var r := FieldMatchAt(line, i, p); r.Some? && p == JobNumber ==> IsJobId(r.value)
    ensures var r := FieldMatchAt(line, i, p); r.Some? && p == JobName ==> forall k :: 0 <= k < |r.value| ==> !IsSpace(r.value[k])
  {
  }

  /** `re.search` from index `i`: the pattern is tried at `i`, `i + 1`, ... and the
      first index where it matches gives the group. */
  function FieldSearch(line: string, p: Pattern, i: nat): Option<string>
    requires i <= |line|
    decreases |line| - i
  {
    var m := FieldMatchAt(line, i, p);
    if m.Some? || i == |line| then m else FieldSearch(line, p, i + 1)
  }

  /** `re.search(pattern, line)` and its group. */
  function Find(line: string, p: Pattern): Option<string> {
    FieldSearch(line, p, 0)
  }

  /** The outcome of the pattern at every index of the line, end of line included. */
  function Matches(line: string, p: Pattern): (ms: seq<Option<string>>)
    ensures |ms| == |line| + 1 && forall k :: 0 <= k <= |line| ==> ms[k] == FieldMatchAt(line, k, p)
  {
    seq(|line| + 1, k requires 0 <= k <= |line| => FieldMatchAt(line, k, p))
  }

  /** The first outcome from index `i` on that is a match. */
  function FirstSome(ms: seq<Option<string>>, i: nat): Option<string>
    requires i <= |ms|
    decreases |ms| - i
  {
    if i == |ms| then None
    else if ms[i].Some? then ms[i]
    else FirstSome(ms, i + 1)
  }

  /** The first match is None exactly when there is none, and otherwise one before which
      every outcome is None. */
  lemma {:induction false} FirstSomeSpec(ms: seq<Option<string>>, i: nat)
    requires i <= |ms|
    ensures FirstSome(ms, i).None? <==> forall k :: i <= k < |ms| ==> ms[k].None?
    ensures FirstSome(ms, i).Some? ==> exists k :: i <= k < |ms| && ms[k] == FirstSome(ms, i) && forall j :: i <= j < k ==> ms[j].None?
    decreases |ms| - i
  {
    if i < |ms| && ms[i].None? {
      FirstSomeSpec(ms, i + 1);
    }
  }

  /** Searching from `i` is taking the first match among the outcomes from `i` on. */
  lemma {:induction false} FieldSearchIsFirst(line: string, p: Pattern, i: nat)
    requires i <= |line|
    ensures FieldSearch(line, p, i) == FirstSome(Matches(line, p), i)
    decreases |line| - i
  {
    var ms := Matches(line, p);
    assert ms[i] == FieldMatchAt(line, i, p);
    if FieldMatchAt(line, i, p).None? {
      if i < |line| {
        FieldSearchIsFirst(line, p, i + 1);
      } else {
        assert i + 1 == |ms|;
      }
    }
  }

  /** Find is `re.search`: None exactly when the pattern matches at no index, and
      otherwise the group at the leftmost index where it matches. */
  lemma FindLeftmost(line: string, p: Pattern)
    ensures Find(line, p).None? <==> forall k :: 0 <= k <= |line| ==> FieldMatchAt(line, k, p).None?
    ensures Find(line, p).Some? ==> exists k :: (0 <= k <= |line| && FieldMatchAt(line, k, p) == Find(line, p)
      && forall j :: 0 <= j < k ==> FieldMatchAt(line, j, p).None?)
  {
    FieldSearchIsFirst(line, p, 0);
    FirstSomeSpec(Matches(line, p), 0);
  }

  /** A line in which the pattern is found holds the pattern's keyword. */
  lemma FindHasKeyword(line: string, p: Pattern)
    ensures Find(line, p).Some? ==> Contains(line, Keyword(p))
  {
    FindLeftmost(line, p);
    if Find(line, p).Some? {
      var k :| 0 <= k <= |line| && FieldMatchAt(line, k, p) == Find(line, p) && forall j :: 0 <= j < k ==> FieldMatchAt(line, j, p).None?;
      FieldMatchAtSpec(line, k, p);
      assert OccursAt(line, Keyword(p), k);
    }
  }

  /** A found group is never empty, and a job_number group is a job id. */
  lemma FindGroup(line: string, p: Pattern)
    ensures Find(line, p).Some? ==> Find(line, p).value != []
    ensures Find(line, p).Some? && p == JobNumber ==> IsJobId(Find(line, p).value)
  {
    FindLeftmost(line, p);
    if Find(line, p).Some? {
      var k :| 0 <= k <= |line| && FieldMatchAt(line, k, p) == Find(line, p) && forall j :: 0 <= j < k ==> FieldMatchAt(line, j, p).None?;
      FieldMatchAtSpec(line, k, p);
    }
  }

  /** The branch of the `if/elif` chain a line takes: the first pattern, in rank order,
      that `re.search` finds in it, with that pattern's group. */
  function Classify(line: string): (r: Option<(Pattern, string)>)
    ensures r.Some? ==> Find(line, r.value.0) == Some(r.value.1)
    ensures forall q :: (r.None? || Rank(q) < Rank(r.value.0)) ==> Find(line, q).None?
    ensures r.Some? && r.value.0 == JobNumber ==> IsJobId(r.value.1)
  {
    FindGroup(line, JobNumber);
    if Find(line, JobNumber).Some? then Some((JobNumber, Find(line, JobNumber).value))
    else if Find(line, JobName).Some? then Some((JobName, Find(line, JobName).value))
    else if Find(line, Usage).Some? then Some((Usage, Find(line, Usage).value))
    else if Find(line, SubmissionTime).Some? then Some((SubmissionTime, Find(line, SubmissionTime).value))
    else if Find(line, JobArgs).Some? then Some((JobArgs, Find(line, JobArgs).value))
    else None
  }

  /** What the loop needs to know about a line: the branch it takes, and whether it is a
      separator (`'=' * 20 in line`). */
  datatype LineKind = LineKind(field: Option<(Pattern, string)>, separator: bool)

  /** `'=' * 20 in line` */
  predicate IsSeparator(line: string) {
    Contains(line, Repeat('=', 20))
  }

  function Kind(line: string): LineKind {
    LineKind(Classify(line), IsSeparator(line))
  }

  function Kinds(lines: seq<string>): (ks: seq<LineKind>)
    ensures |ks| == |lines| && forall i :: 0 <= i < |lines| ==> ks[i] == Kind(lines[i])
    ensures JobIdsNonEmpty(ks)
  {
    seq(|lines|, i requires 0 <= i < |lines| => Kind(lines[i]))
  }

  /** Every job_number group is non-empty, as `\d+` makes it. */
  predicate JobIdsNonEmpty(ks: seq<LineKind>) {
    forall j :: 0 <= j < |ks| && ks[j].field.Some? && ks[j].field.value.0 == JobNumber ==> ks[j].field.value.1 != ""
  }

  /** The stored value of a submission_time group: the placeholder as it is, anything
      else rewritten to `YYYY-MM-DD HH:MM:SS`, None when strptime would raise. */
  function TimeShown(v: string): (r: Option<string>)
    ensures v == Unknown ==> r == Some(v)
    ensures v != Unknown ==> r == Reformat(v)
    ensures r.Some? && v != Unknown ==> IsIsoShaped(r.value)
  {
    if v == Unknown then Some(v) else Reformat(v)
  }

  /** One pass of the `if/elif` chain over `item`, given the branch the line takes: at
      most the one field of that branch changes, and a submission time strptime refuses
      aborts the scan. */
  function Update(item: map<string, string>, c: Option<(Pattern, string)>): (r: Result<map<string, string>>)
    ensures c.None? ==> r == Ok(item)
    ensures c.Some? && c.value.0 == SubmissionTime && TimeShown(c.value.1).None? ==> r == Err(BadTimestamp(c.value.1))
    ensures c.Some? && (c.value.0 != SubmissionTime || TimeShown(c.value.1).Some?) ==> (
      && r.Ok? && r.value.Keys == item.Keys + {FieldKey(c.value.0)}
      && r.value[FieldKey(c.value.0)] == (if c.value.0 == SubmissionTime then TimeShown(c.value.1).value else c.value.1)
      && forall k :: k in item && k != FieldKey(c.value.0) ==> r.value[k] == item[k])
  {
    match c
    case None => Ok(item)
    case Some((p, v)) =>
      if p != SubmissionTime then Ok(item[FieldKey(p) := v])
      else
        match TimeShown(v)
        case None => Err(BadTimestamp(v))
        case Some(t) => Ok(item[FieldKey(p) := t])
  }

  /** The keys `print_item` reads with `item[...]`, in the order it reads them. */
  const Required: seq<string> := ["job_id", "job_name", "usage", "submit_time", "shell"]

  /** The labels of the five lines after the separator, all fourteen characters wide. */
  const Labels: seq<string> := ["Jobinfo:      ", "Useage:       ", "Submit_time:  ", "Shell:        ", "Queue:        "]

  /** What `print_item` leaves on the console, and the KeyError that stopped it, if any. */
  datatype Printed = Printed(lines: seq<string>, failure: Option<Error>)

  /** `str(item.get(key))` */
  function ValueOrNone(item: map<string, string>, key: string): string {
    if key in item then item[key] else "None"
  }

  /** `print_item`: a 60-character `=` line, then the job id and name, the usage, the
      submission time, the shell and the queue, each after its label. A missing
      required key raises after the lines already printed; the line that reads it is
      not printed. */
  function PrintItem(item: map<string, string>): (p: Printed)
    ensures 1 <= |p.lines| <= 6 && p.lines[0] == Repeat('=', 60)
    ensures forall k :: 1 <= k < |p.lines| ==> |p.lines[k]| >= 14 && p.lines[k][..14] == Labels[k - 1]
    ensures p.failure.None? <==> forall k :: 0 <= k < |Required| ==> Required[k] in item
    ensures p.failure.None? ==> |p.lines| == 6 && p.lines[5] == Labels[4] + ValueOrNone(item, "exec_host")
    ensures p.failure.Some? ==> exists m :: (
      && 0 <= m < |Required|
      && p.failure == Some(MissingKey(Required[m]))
      && Required[m] !in item
      && (forall k :: 0 <= k < m ==> Required[k] in item)
      && |p.lines| == (if m == 0 then 1 else m))
  {
    var sep := Repeat('=', 60);
    if Required[0] !in item then Printed([sep], Some(MissingKey(Required[0])))
    else if Required[1] !in item then Printed([sep], Some(MissingKey(Required[1])))
    else
      var l1 := Labels[0] + item["job_id"] + " " + item["job_name"];
      if Required[2] !in item then Printed([sep, l1], Some(MissingKey(Required[2])))
      else
        var l2 := Labels[1] + item["usage"];
        if Required[3] !in item then Printed([sep, l1, l2], Some(MissingKey(Required[3])))
        else
          var l3 := Labels[2] + item["submit_time"];
          if Required[4] !in item then Printed([sep, l1, l2, l3], Some(MissingKey(Required[4])))
          else
            var l4 := Labels[3] + item["shell"];
            Printed([sep, l1, l2, l3, l4, Labels[4] + ValueOrNone(item, "exec_host")], None)
  }

  /** The state of the compact scan: the item, the console so far, and the exception
      that ended the scan, if one did. */
  datatype Scan = Scan(item: map<string, string>, console: seq<string>, failure: Option<Error>)

  /** `item.get('job_id')` is truthy. */
  predicate HasJobId(item: map<string, string>) {
    "job_id" in item && item["job_id"] != ""
  }

  /** The item with the queue of its job stored as `exec_host`, as both emissions do. */
  function WithHost(item: map<string, string>, jobInfo: map<string, string>): map<string, string>
    requires "job_id" in item
  {
    item["exec_host" := NodeOf(jobInfo, item["job_id"])]
  }

  /** One line of the loop: the field update, then the emission at a separator once the
      item holds a job id. A failed scan stays as it is. */
  function Step(st: Scan, k: LineKind, jobInfo: map<string, string>): Scan {
    if st.failure.Some? then st
    else
      match Update(st.item, k.field)
      case Err(e) => Scan(st.item, st.console, Some(e))
      case Ok(item) =>
        if k.separator && HasJobId(item) then
          var shown := WithHost(item, jobInfo);
          var p := PrintItem(shown);
          Scan(shown, st.console + p.lines, p.failure)
        else Scan(item, st.console, None)
  }

  /** The state after the loop has run over lines of kinds `ks`. */
  function ScanKinds(ks: seq<LineKind>, jobInfo: map<string, string>): Scan
    decreases |ks|
  {
    if ks == [] then Scan(map[], [], None)
    else Step(ScanKinds(ks[..|ks| - 1], jobInfo), ks[|ks| - 1], jobInfo)
  }

  /** The emission after the loop, and what `format_qstat_output` then returns: the
      `"\n".join` of an empty list. */
  function Finish(st: Scan, jobInfo: map<string, string>): (seq<string>, Result<string>) {
    if st.failure.Some? then (st.console, Err(st.failure.value))
    else if "job_id" !in st.item then (st.console, Err(MissingKey("job_id")))
    else
      var p := PrintItem(WithHost(st.item, jobInfo));
      (st.console + p.lines, if p.failure.Some? then Err(p.failure.value) else Ok(""))
  }

  /** The compact view of the lines: the console it prints and its result. */
  function CompactRun(lines: seq<string>, jobInfo: map<string, string>): (seq<string>, Result<string>) {
    Finish(ScanKinds(Kinds(lines), jobInfo), jobInfo)
  }

  /** A line that takes the branch of pattern `p`. */
  predicate IsLineOf(k: LineKind, p: Pattern) {
    k.field.Some? && k.field.value.0 == p
  }

  /** The group of the last line that takes the branch of `p`. */
  function LastValue(ks: seq<LineKind>, p: Pattern): Option<string>
    decreases |ks|
  {
    if ks == [] then None
    else if IsLineOf(ks[|ks| - 1], p) then Some(ks[|ks| - 1].field.value.1)
    else LastValue(ks[..|ks| - 1], p)
  }

  /** The value is None exactly when no line takes the branch, and otherwise the group
      of a line after which no line takes it. */
  lemma {:induction false} LastValueSpec(ks: seq<LineKind>, p: Pattern)
    ensures LastValue(ks, p).None? <==> forall j :: 0 <= j < |ks| ==> !IsLineOf(ks[j], p)
    ensures LastValue(ks, p).Some? ==> exists j :: (
      && 0 <= j < |ks| && IsLineOf(ks[j], p) && ks[j].field.value.1 == LastValue(ks, p).value
      && forall k :: j < k < |ks| ==> !IsLineOf(ks[k], p))
    decreases |ks|
  {
    if ks != [] {
      var front := ks[..|ks| - 1];
      assert forall j :: 0 <= j < |front| ==> front[j] == ks[j];
      LastValueSpec(front, p);
      if !IsLineOf(ks[|ks| - 1], p) && LastValue(front, p).Some? {
        var j :| && 0 <= j < |front| && IsLineOf(front[j], p) && front[j].field.value.1 == LastValue(front, p).value
          && forall k :: j < k < |front| ==> !IsLineOf(front[k], p);
        assert IsLineOf(ks[j], p);
      }
    }
  }

  /** The number of separator lines at which the item is printed: those reached after a
      job_number line, the separator line itself included. */
  function Emissions(ks: seq<LineKind>): nat
    decreases |ks|
  {
    if ks == [] then 0
    else
      var n := Emissions(ks[..|ks| - 1]);
      if ks[|ks| - 1].separator && LastValue(ks, JobNumber).Some? then n + 1 else n
  }

  /** The `if/elif` chain of one line, given the branch `c` it takes. */
  method ApplyBranch(item: map<string, string>, c: Option<(Pattern, string)>) returns (r: Result<map<string, string>>)
    ensures r == Update(item, c)
  {
    r := Ok(item);
    if c.Some? {
      var (p, v) := c.value;
      if p == JobNumber {
        r := Ok(item["job_id" := v]);
      } else if p == JobName {
        r := Ok(item["job_name" := v]);
      } else if p == Usage {
        r := Ok(item["usage" := v]);
      } else if p == SubmissionTime {
        r := Ok(item["submit_time" := v]);
        if v != Unknown {
          var t := Reformat(v);
          if t.None? {
            return Err(BadTimestamp(v));
          }
          r := Ok(item["submit_time" := t.value]);
        }
      } else {
        r := Ok(item["shell" := v]);
      }
    }
  }

  /** `format_qstat_output(output, job_info)` in compact mode: the console lines the
      scan prints and what the call returns, or the exception that ends it. */
  method FormatCompact(output: string, jobInfo: map<string, string>) returns (console: seq<string>, result: Result<string>)
    ensures (console, result) == CompactRun(SplitLines(output), jobInfo)
    ensures result.Ok? ==> result.value == "" && |console| == 6 * (Emissions(Kinds(SplitLines(output))) + 1)
  {
    var lines := SplitLines(output);
    ghost var ks := Kinds(lines);
    var item: map<string, string> := map[];
    console := [];
    for i := 0 to |lines|
      invariant ScanKinds(ks[..i], jobInfo) == Scan(item, console, None)
    {
      ghost var before := Scan(item, console, None);
      PrefixStep(ks, i, jobInfo);
      assert ks[i] == LineKind(Classify(lines[i]), IsSeparator(lines[i]));
      var line := lines[i];
      var updated := ApplyBranch(item, Classify(line));
      if updated.Err? {
        assert Step(before, ks[i], jobInfo).failure.Some?;
        FailureAbsorbs(ks, i + 1, jobInfo);
        return console, Err(updated.error);
      }
      item := updated.value;
      if IsSeparator(line) && HasJobId(item) {
        item := item["exec_host" := NodeOf(jobInfo, item["job_id"])];
        var printed := PrintItem(item);
        console := console + printed.lines;
        if printed.failure.Some? {
          assert Step(before, ks[i], jobInfo).failure.Some?;
          FailureAbsorbs(ks, i + 1, jobInfo);
          return console, Err(printed.failure.value);
        }
      }
    }
    assert ks[..|lines|] == ks;
    if "job_id" !in item {
      return console, Err(MissingKey("job_id"));
    }
    item := item["exec_host" := NodeOf(jobInfo, item["job_id"])];
    var printed := PrintItem(item);
    console := console + printed.lines;
    if printed.failure.Some? {
      return console, Err(printed.failure.value);
    }
    ConsoleCount(ks, jobInfo);
    return console, Ok("");
  }

  /** The loop state after one more line is one more step. */
  lemma PrefixStep(ks: seq<LineKind>, i: nat, jobInfo: map<string, string>)
    requires i < |ks|
    ensures ScanKinds(ks[..i + 1], jobInfo) == Step(ScanKinds(ks[..i], jobInfo), ks[i], jobInfo)
  {
    assert ks[..i + 1][..i] == ks[..i];
  }

  /** Once an exception has been raised, the rest of the lines change nothing. */
  lemma {:induction false} FailureAbsorbs(ks: seq<LineKind>, n: nat, jobInfo: map<string, string>)
    requires n <= |ks| && ScanKinds(ks[..n], jobInfo).failure.Some?
    ensures ScanKinds(ks, jobInfo) == ScanKinds(ks[..n], jobInfo)
    decreases |ks|
  {
    if n < |ks| {
      var front := ks[..|ks| - 1];
      assert front[..n] == ks[..n];
      FailureAbsorbs(front, n, jobInfo);
    } else {
      assert ks[..n] == ks;
    }
  }

  /** A step that raises nothing changes the item as `Update` does, apart from `exec_host`. */
  lemma StepItem(st: Scan, k: LineKind, jobInfo: map<string, string>, key: string)
    requires st.failure.None? && Step(st, k, jobInfo).failure.None? && key != "exec_host"
    ensures Update(st.item, k.field).Ok?
    ensures var item := Step(st, k, jobInfo).item; var u := Update(st.item, k.field).value;
      (key in item <==> key in u) && (key in u ==> item[key] == u[key])
  {
  }

  /** The last value of a branch after one more line. */
  lemma LastValueSnoc(ks: seq<LineKind>, p: Pattern)
    requires ks != []
    ensures LastValue(ks, p) == if IsLineOf(ks[|ks| - 1], p) then Some(ks[|ks| - 1].field.value.1) else LastValue(ks[..|ks| - 1], p)
  {
  }

  /** The item is never reset: after the scan, each field holds the group of the last
      line that took its branch, whichever job that line belonged to, and a field no
      line has set is absent. */
  lemma {:induction false} ItemTracksLastValue(ks: seq<LineKind>, jobInfo: map<string, string>, p: Pattern)
    requires ScanKinds(ks, jobInfo).failure.None?
    ensures var item := ScanKinds(ks, jobInfo).item; var v := LastValue(ks, p); (
      && (FieldKey(p) in item <==> v.Some?)
      && (v.Some? && p == SubmissionTime ==> TimeShown(v.value).Some?)
      && (v.Some? ==> item[FieldKey(p)] == if p == SubmissionTime then TimeShown(v.value).value else v.value))
    decreases |ks|
  {
    if ks != [] {
      var front := ks[..|ks| - 1];
      var k := ks[|ks| - 1];
      var st := ScanKinds(front, jobInfo);
      assert ScanKinds(ks, jobInfo) == Step(st, k, jobInfo);
      assert st.failure.None?;
      ItemTracksLastValue(front, jobInfo, p);
      StepItem(st, k, jobInfo, FieldKey(p));
      LastValueSnoc(ks, p);
    }
  }

  /** Each emission in the loop prints six lines. */
  lemma {:induction false} ConsoleCount(ks: seq<LineKind>, jobInfo: map<string, string>)
    requires JobIdsNonEmpty(ks) && ScanKinds(ks, jobInfo).failure.None?
    ensures |ScanKinds(ks, jobInfo).console| == 6 * Emissions(ks)
    decreases |ks|
  {
    if ks != [] {
      var front := ks[..|ks| - 1];
      var st := ScanKinds(front, jobInfo);
      assert st.failure.None?;
      assert forall j :: 0 <= j < |front| ==> front[j] == ks[j];
      ConsoleCount(front, jobInfo);
      ItemTracksLastValue(ks, jobInfo, JobNumber);
      var item := Update(st.item, ks[|ks| - 1].field).value;
      var v := LastValue(ks, JobNumber);
      LastValueSpec(ks, JobNumber);
      assert "job_id" in item <==> v.Some?;
      assert v.Some? ==> item["job_id"] == v.value != "";
    }
  }

  /** Without a job_number line nothing is printed in the loop and the item never gets
      a job id. */
  lemma {:induction false} NoJobNumberNoOutput(ks: seq<LineKind>, jobInfo: map<string, string>)
    requires forall j :: 0 <= j < |ks| ==> !IsLineOf(ks[j], JobNumber)
    ensures ScanKinds(ks, jobInfo).console == [] && "job_id" !in ScanKinds(ks, jobInfo).item
    decreases |ks|
  {
    if ks != [] {
      var front := ks[..|ks| - 1];
      assert forall j :: 0 <= j < |front| ==> front[j] == ks[j];
      NoJobNumberNoOutput(front, jobInfo);
      assert !IsLineOf(ks[|ks| - 1], JobNumber);
    }
  }

  /** Output without a job_number line ends in the KeyError of `item['job_id']` after
      the loop (or in an earlier exception) and prints nothing. */
  lemma NoJobNumberFails(lines: seq<string>, jobInfo: map<string, string>)
    requires forall j :: 0 <= j < |lines| ==> !IsLineOf(Kind(lines[j]), JobNumber)
    ensures CompactRun(lines, jobInfo).0 == []
    ensures CompactRun(lines, jobInfo).1.Err?
    ensures ScanKinds(Kinds(lines), jobInfo).failure.None? ==> CompactRun(lines, jobInfo).1 == Err(MissingKey("job_id"))
  {
    NoJobNumberNoOutput(Kinds(lines), jobInfo);
  }

  /** A submission_time line whose value strptime refuses aborts the whole call, with no
      default value to fall back on. */
  lemma BadTimestampAborts(lines: seq<string>, i: nat, jobInfo: map<string, string>)
    requires i < |lines| && IsLineOf(Kind(lines[i]), SubmissionTime)
    requires TimeShown(Kind(lines[i]).field.value.1).None?
    ensures CompactRun(lines, jobInfo).1.Err?
  {
    var ks := Kinds(lines);
    PrefixStep(ks, i, jobInfo);
    BadTimeFails(ScanKinds(ks[..i], jobInfo), ks[i], jobInfo);
    FailureAbsorbs(ks, i + 1, jobInfo);
  }

  /** A submission_time line whose value strptime refuses leaves the scan failed. */
  lemma BadTimeFails(st: Scan, k: LineKind, jobInfo: map<string, string>)
    requires IsLineOf(k, SubmissionTime) && TimeShown(k.field.value.1).None?
    ensures Step(st, k, jobInfo).failure.Some?
  {
  }

  /** A successful compact view prints six lines per emission in the loop and six more
      at the end, and returns the empty string. */
  lemma SuccessShape(lines: seq<string>, jobInfo: map<string, string>)
    requires CompactRun(lines, jobInfo).1.Ok?
    ensures CompactRun(lines, jobInfo).1 == Ok("")
    ensures |CompactRun(lines, jobInfo).0| == 6 * (Emissions(Kinds(lines)) + 1)
  {
    ConsoleCount(Kinds(lines), jobInfo);
  }

  /** `job_number:` followed by white space and the id classifies as the job id. */
  lemma JobNumberLine(pad: string, id: string)
    requires pad != [] && IsBlank(pad) && IsJobId(id)
    ensures Classify("job_number:" + pad + id) == Some((JobNumber, id))
  {
    var line := "job_number:" + pad + id;
    var w := 11 + |pad|;
    assert line[..11] == "job_number:" && line[11..w] == pad && line[w..] == id;
    RunEndIs(line, 11, Space, w);
    RunEndIs(line, w, Digit, |line|);
    assert line[w] == id[0] && line[0..11] == "job_number:";
    assert RunEnd(line, 11, Space) == w;
    assert w < |line| && IsDigit(line[w]);
    assert RunEnd(line, w, Digit) == |line|;
    assert line[w..|line|] == id;
    assert DigitsAfterSpace(line, 11) == Some(id);
    assert FieldMatchAt(line, 0, JobNumber) == Some(id);
  }

  /** A `submission_time:` line whose value starts after the white space classifies as
      that value when the line holds none of the keywords tried before it. */
  lemma SubmissionLine(pad: string, v: string)
    requires pad != [] && IsBlank(pad) && v != [] && !IsSpace(v[0])
    requires var line := "submission_time:" + pad + v;
      !Contains(line, "job_number:") && !Contains(line, "job_name:") && !Contains(line, "usage")
    ensures Classify("submission_time:" + pad + v) == Some((SubmissionTime, v))
  {
    var line := "submission_time:" + pad + v;
    var w := 16 + |pad|;
    assert line[..16] == "submission_time:" && line[16..w] == pad && line[w..] == v;
    RunEndIs(line, 16, Space, w);
    assert FieldMatchAt(line, 0, SubmissionTime) == Some(v);
    FindHasKeyword(line, JobNumber);
    FindHasKeyword(line, JobName);
    FindHasKeyword(line, Usage);
  }

  /** Kinds `ks` are those of the lines of one job as qstat prints it: the separator, then
      the five fields. */
  predicate OneJob(ks: seq<LineKind>, id: string, name: string, usage: string, time: string, shell: string) {
    && |ks| == 6 && ks[0] == LineKind(None, true) && ks[1] == LineKind(Some((JobNumber, id)), false)
    && ks[2] == LineKind(Some((JobName, name)), false) && ks[3] == LineKind(Some((Usage, usage)), false)
    && ks[4] == LineKind(Some((SubmissionTime, time)), false) && ks[5] == LineKind(Some((JobArgs, shell)), false)
  }

  /** A field line that raises nothing only updates the item while nothing has been printed. */
  lemma QuietStep(item: map<string, string>, p: Pattern, v: string, w: string, jobInfo: map<string, string>)
    requires p == SubmissionTime ==> TimeShown(v).Some?
    requires w == (if p == SubmissionTime then TimeShown(v).value else v)
    ensures Step(Scan(item, [], None), LineKind(Some((p, v)), false), jobInfo) == Scan(item[FieldKey(p) := w], [], None)
  {
  }

  /** The separator comes before the job id, so the loop prints nothing for one job. */
  lemma OneJobScan(ks: seq<LineKind>, id: string, name: string, usage: string, time: string, shell: string,
                   jobInfo: map<string, string>)
    requires OneJob(ks, id, name, usage, time, shell) && TimeShown(time).Some?
    ensures ScanKinds(ks, jobInfo) == Scan(map["job_id" := id, "job_name" := name,
      "usage" := usage, "submit_time" := TimeShown(time).value, "shell" := shell], [], None)
  {
    JobHead(ks, id, name, usage, time, shell, jobInfo);
    JobTail(ks, id, name, usage, time, shell, TimeShown(time).value, jobInfo);
  }

  /** The usage, the submission time and the job arguments of one job fill the rest of
      the item and print nothing. */
  lemma JobTail(ks: seq<LineKind>, id: string, name: string, usage: string, time: string, shell: string,
                t: string, jobInfo: map<string, string>)
    requires OneJob(ks, id, name, usage, time, shell) && TimeShown(time) == Some(t)
    requires ScanKinds(ks[..3], jobInfo) == Scan(map["job_id" := id, "job_name" := name], [], None)
    ensures ScanKinds(ks, jobInfo) == Scan(map["job_id" := id, "job_name" := name,
      "usage" := usage, "submit_time" := t, "shell" := shell], [], None)
  {
    var m4 := map["job_id" := id, "job_name" := name, "usage" := usage, "submit_time" := t];
    JobMiddle(ks, id, name, usage, time, shell, t, jobInfo);
    var m5 := QuietPrefix(ks, 5, jobInfo, m4, JobArgs, shell, shell);
    assert ks[..6] == ks;
  }

  /** The usage and the submission time of one job fill the item further and print nothing. */
  lemma JobMiddle(ks: seq<LineKind>, id: string, name: string, usage: string, time: string, shell: string,
                  t: string, jobInfo: map<string, string>)
    requires OneJob(ks, id, name, usage, time, shell) && TimeShown(time) == Some(t)
    requires ScanKinds(ks[..3], jobInfo) == Scan(map["job_id" := id, "job_name" := name], [], None)
    ensures ScanKinds(ks[..5], jobInfo) == Scan(map["job_id" := id, "job_name" := name,
      "usage" := usage, "submit_time" := t], [], None)
  {
    var m3 := map["job_id" := id, "job_name" := name, "usage" := usage];
    JobUsage(ks, id, name, usage, time, shell, jobInfo);
    TimePrefix(ks, 4, jobInfo, m3, time, t);
  }

  /** A submission time that strptime accepts extends a prefix that has printed nothing. */
  lemma TimePrefix(ks: seq<LineKind>, i: nat, jobInfo: map<string, string>, item: map<string, string>,
                   v: string, w: string)
    requires i < |ks| && ScanKinds(ks[..i], jobInfo) == Scan(item, [], None)
    requires ks[i] == LineKind(Some((SubmissionTime, v)), false) && TimeShown(v) == Some(w)
    ensures ScanKinds(ks[..i + 1], jobInfo) == Scan(item["submit_time" := w], [], None)
  {
    var next := QuietPrefix(ks, i, jobInfo, item, SubmissionTime, v, w);
  }

  /** The usage of one job fills the item further and prints nothing. */
  lemma JobUsage(ks: seq<LineKind>, id: string, name: string, usage: string, time: string, shell: string,
                 jobInfo: map<string, string>)
    requires OneJob(ks, id, name, usage, time, shell)
    requires ScanKinds(ks[..3], jobInfo) == Scan(map["job_id" := id, "job_name" := name], [], None)
    ensures ScanKinds(ks[..4], jobInfo) == Scan(map["job_id" := id, "job_name" := name, "usage" := usage], [], None)
  {
    var m2 := map["job_id" := id, "job_name" := name];
    var m3 := QuietPrefix(ks, 3, jobInfo, m2, Usage, usage, usage);
  }

  /** The separator, the job number and the job name of one job print nothing. */
  lemma JobHead(ks: seq<LineKind>, id: string, name: string, usage: string, time: string, shell: string,
                jobInfo: map<string, string>)
    requires OneJob(ks, id, name, usage, time, shell)
    ensures ScanKinds(ks[..3], jobInfo) == Scan(map["job_id" := id, "job_name" := name], [], None)
  {
    var m0: map<string, string> := map[];
    assert ks[..0] == [];
    PrefixStep(ks, 0, jobInfo);
    assert ScanKinds(ks[..1], jobInfo) == Scan(m0, [], None);
    var m1 := QuietPrefix(ks, 1, jobInfo, m0, JobNumber, id, id);
    var m2 := QuietPrefix(ks, 2, jobInfo, m1, JobName, name, name);
    assert m2 == map["job_id" := id, "job_name" := name];
  }

  /** A quiet field line extends a prefix that has printed nothing. */
  lemma QuietPrefix(ks: seq<LineKind>, i: nat, jobInfo: map<string, string>, item: map<string, string>,
                    p: Pattern, v: string, w: string) returns (next: map<string, string>)
    requires i < |ks| && ScanKinds(ks[..i], jobInfo) == Scan(item, [], None) && ks[i] == LineKind(Some((p, v)), false)
    requires p == SubmissionTime ==> TimeShown(v).Some?
    requires w == (if p == SubmissionTime then TimeShown(v).value else v)
    ensures next == item[FieldKey(p) := w] && ScanKinds(ks[..i + 1], jobInfo) == Scan(next, [], None)
  {
    PrefixStep(ks, i, jobInfo);
    QuietStep(item, p, v, w, jobInfo);
    next := item[FieldKey(p) := w];
  }

  /** An item holding the five required fields prints its six lines and raises nothing. */
  lemma PrintFull(item: map<string, string>)
    requires "job_id" in item && "job_name" in item && "usage" in item && "submit_time" in item && "shell" in item
    ensures PrintItem(item) == Printed([
        Repeat('=', 60),
        "Jobinfo:      " + item["job_id"] + " " + item["job_name"],
        "Useage:       " + item["usage"],
        "Submit_time:  " + item["submit_time"],
        "Shell:        " + item["shell"],
        "Queue:        " + ValueOrNone(item, "exec_host")], None)
  {
    assert Labels[0] == "Jobinfo:      " && Labels[1] == "Useage:       " && Labels[2] == "Submit_time:  ";
    assert Labels[3] == "Shell:        " && Labels[4] == "Queue:        ";
  }

  /** qstat prints the separator before each job, so a single job with all five fields
      is printed exactly once, by the emission after the loop. */
  lemma SingleJob(ks: seq<LineKind>, id: string, name: string, usage: string, time: string, shell: string,
                  jobInfo: map<string, string>)
    requires OneJob(ks, id, name, usage, time, shell) && TimeShown(time).Some?
    ensures Finish(ScanKinds(ks, jobInfo), jobInfo) == ([
        Repeat('=', 60),
        "Jobinfo:      " + id + " " + name,
        "Useage:       " + usage,
        "Submit_time:  " + TimeShown(time).value,
        "Shell:        " + shell,
        "Queue:        " + NodeOf(jobInfo, id)], Ok(""))
  {
    OneJobScan(ks, id, name, usage, time, shell, jobInfo);
    var t := TimeShown(time).value;
    var item := map["job_id" := id, "job_name" := name, "usage" := usage, "submit_time" := t, "shell" := shell];
    FinishQuiet(item, jobInfo);
    OneItemLines(id, name, usage, t, shell, jobInfo, item);
  }

  /** The six lines printed for the item of one job. */
  lemma OneItemLines(id: string, name: string, usage: string, t: string, shell: string,
                     jobInfo: map<string, string>, item: map<string, string>)
    requires item == map["job_id" := id, "job_name" := name, "usage" := usage, "submit_time" := t, "shell" := shell]
    ensures PrintItem(WithHost(item, jobInfo)).lines == [
        Repeat('=', 60),
        "Jobinfo:      " + id + " " + name,
        "Useage:       " + usage,
        "Submit_time:  " + t,
        "Shell:        " + shell,
        "Queue:        " + NodeOf(jobInfo, id)]
  {
    var shown := WithHost(item, jobInfo);
    assert shown["job_id"] == id && shown["job_name"] == name && shown["usage"] == usage;
    assert shown["submit_time"] == t && shown["shell"] == shell;
    assert ValueOrNone(shown, "exec_host") == NodeOf(jobInfo, id);
    PrintFull(shown);
  }

  /** After a loop that printed nothing and raised nothing, the emission after the loop
      is all the console holds. */
  lemma FinishQuiet(item: map<string, string>, jobInfo: map<string, string>)
    requires "job_id" in item && "job_name" in item && "usage" in item && "submit_time" in item && "shell" in item
    ensures Finish(Scan(item, [], None), jobInfo) == (PrintItem(WithHost(item, jobInfo)).lines, Ok(""))
  {
    var shown := WithHost(item, jobInfo);
    PrintFull(shown);
    assert [] + PrintItem(shown).lines == PrintItem(shown).lines;
  }
}
