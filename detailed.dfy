/** The detailed view of `qstat -j` output (`format_qstat_output` with `--detail`): the
    lines are split into job records at the 60-character separators, each record keeps
    the fields of a fixed table, and each record is rendered as a separator, one labelled
    line per field in table order, and the line of the node the job runs on. */
module Detailed {
  import opened Base
  import opened Text
  import opened QueueIndex

  /** `field_mapping`: the keys kept, in the order they are rendered, with their labels. */
  const FieldTable: seq<(string, string)> := [
    ("job_number", "作业编号"),
    ("job_name", "作业名称"),
    ("submission_time", "提交时间"),
    ("hard resource_list", "硬资源请求"),
    ("usage", "资源使用情况"),
    ("owner", "提交者"),
    ("uid", "用户ID"),
    ("group", "用户组"),
    ("gid", "组ID"),
    ("sge_o_host", "主机"),
    ("cwd", "当前工作目录"),
    ("stderr_path_list", "错误输出路径"),
    ("stdout_path_list", "标准输出路径"),
    ("hard_queue_list", "硬队列"),
    ("restart", "是否支持重启"),
    ("job_args", "作业参数")]

  /** A job record: the captured value of each table key seen in its group of lines. */
  type Record = map<string, string>

  /** `"=" * 60 in line` */
  predicate IsRecordSeparator(line: string) {
    Contains(line, Repeat('=', 60))
  }

  /** The keys among the first `n` of the table that `line` starts with. */
  function MatchedKeys(line: string, n: nat): set<string>
    requires n <= |FieldTable|
  {
    if n == 0 then {}
    else
      var key := FieldTable[n - 1].0;
      MatchedKeys(line, n - 1) + if StartsWith(line, key) then {key} else {}
  }

  /** A key is matched exactly when it is one of the first `n` of the table and the line
      starts with it. */
  lemma {:induction false} MatchedKeysHas(line: string, n: nat)
    requires n <= |FieldTable|
    ensures forall key :: key in MatchedKeys(line, n) <==> exists k | 0 <= k < n :: FieldTable[k].0 == key && StartsWith(line, key)
  {
    if n > 0 {
      MatchedKeysHas(line, n - 1);
    }
  }

  /** A line that the splitter stores a field from: not blank, not a separator, and
      starting with a key of the table. */
  predicate IsFieldLine(line: string) {
    !IsBlank(line) && !IsRecordSeparator(line) && MatchedKeys(line, |FieldTable|) != {}
  }

  /** Index `i` holds the first ':' of the line. */
  predicate FirstColon(line: string, i: int) {
    0 <= i < |line| && line[i] == ':' && ':' !in line[..i]
  }

  /** `line.split(':', 1)[1].strip()`; None is the IndexError of a line without ':'. */
  function ValueOf(line: string): (r: Option<string>)
    ensures r.None? <==> ':' !in line
    ensures r.Some? ==> exists i :: FirstColon(line, i) && r.value == Strip(line[i + 1..])
  {
    var k := IndexOf(line, ':');
    if k.None? then None
    else
      var i := k.value;
      var v := Strip(line[i + 1..]);
      assert FirstColon(line, i) && v == Strip(line[i + 1..]);
      Some(v)
  }

  /** The inner loop over the first `n` keys of the table: every key the line starts
      with is set to the line's value, and a line without ':' raises at the first such
      key. */
  function Capture(rec: Record, line: string, n: nat): Result<Record>
    requires n <= |FieldTable|
  {
    if n == 0 then Ok(rec)
    else
      match Capture(rec, line, n - 1)
      case Err(e) => Err(e)
      case Ok(prev) =>
        var key := FieldTable[n - 1].0;
        if !StartsWith(line, key) then Ok(prev)
        else
          match ValueOf(line)
          case None => Err(NoColon(line))
          case Some(v) => Ok(prev[key := v])
  }

  /** What the inner loop does to the record: every key the line starts with is set to
      the line's value and the others are kept, and it raises exactly when there is such
      a key and the line has no ':'. */
  lemma {:induction false} CaptureSpec(rec: Record, line: string, n: nat)
    requires n <= |FieldTable|
    ensures var r := Capture(rec, line, n); r.Err? <==> ':' !in line && MatchedKeys(line, n) != {}
    ensures var r := Capture(rec, line, n); r.Err? ==> r == Err(NoColon(line))
    ensures var r := Capture(rec, line, n); r.Ok? ==> r.value.Keys == rec.Keys + MatchedKeys(line, n)
    ensures var r := Capture(rec, line, n); r.Ok? ==> forall key :: key in r.value ==>
      r.value[key] == if key in MatchedKeys(line, n) then ValueOf(line).value else rec[key]
  {
    if n > 0 {
      CaptureSpec(rec, line, n - 1);
      CaptureSpecStep(rec, line, n, Capture(rec, line, n - 1), Capture(rec, line, n));
    }
  }

  /** The inner loop keeps what it promises over one more key of the table. */
  lemma CaptureSpecStep(rec: Record, line: string, n: nat, prev: Result<Record>, r: Result<Record>)
    requires 0 < n <= |FieldTable| && prev == Capture(rec, line, n - 1) && r == Capture(rec, line, n)
    requires prev.Err? <==> ':' !in line && MatchedKeys(line, n - 1) != {}
    requires prev.Err? ==> prev == Err(NoColon(line))
    requires prev.Ok? ==> prev.value.Keys == rec.Keys + MatchedKeys(line, n - 1)
    requires prev.Ok? ==> forall key :: key in prev.value ==>
      prev.value[key] == if key in MatchedKeys(line, n - 1) then ValueOf(line).value else rec[key]
    ensures r.Err? <==> ':' !in line && MatchedKeys(line, n) != {}
    ensures r.Err? ==> r == Err(NoColon(line))
    ensures r.Ok? ==> r.value.Keys == rec.Keys + MatchedKeys(line, n)
    ensures r.Ok? ==> forall key :: key in r.value ==>
      r.value[key] == if key in MatchedKeys(line, n) then ValueOf(line).value else rec[key]
  {
    var key := FieldTable[n - 1].0;
    var before, after := MatchedKeys(line, n - 1), MatchedKeys(line, n);
    assert after == before + if StartsWith(line, key) then {key} else {};
    if prev.Ok? && StartsWith(line, key) && ValueOf(line).Some? {
      assert r == Ok(prev.value[key := ValueOf(line).value]);
      StoreValue(rec, prev.value, key, ValueOf(line).value, before, after);
    }
  }

  /** Storing the line's value under one more matched key keeps every matched key at
      that value and every other key at its value in the starting record. */
  lemma StoreValue(rec: Record, prev: Record, key: string, v: string, before: set<string>, after: set<string>)
    requires after == before + {key} && prev.Keys == rec.Keys + before
    requires forall k :: k in prev ==> prev[k] == if k in before then v else rec[k]
    ensures prev[key := v].Keys == rec.Keys + after
    ensures forall k :: k in prev[key := v] ==> prev[key := v][k] == if k in after then v else rec[k]
  {
  }

  /** The splitter's state: the closed records and the open one. */
  datatype Split = Split(done: seq<Record>, open: Record)

  /** One line of the splitting loop. Blank lines are skipped; a separator closes the
      open record when it is not empty and opens an empty one; any other line stores
      the fields it starts with. */
  function ScanLine(st: Split, line: string): Result<Split> {
    if IsBlank(line) then Ok(st)
    else if IsRecordSeparator(line) then
      Ok(Split(if st.open != map[] then st.done + [st.open] else st.done, map[]))
    else
      match Capture(st.open, line, |FieldTable|)
      case Err(e) => Err(e)
      case Ok(rec) => Ok(Split(st.done, rec))
  }

  /** The state after the splitting loop has run over `lines`, or the exception that
      ended it. */
  function ScanAll(lines: seq<string>): Result<Split>
    decreases |lines|
  {
    if lines == [] then Ok(Split([], map[]))
    else
      match ScanAll(lines[..|lines| - 1])
      case Err(e) => Err(e)
      case Ok(st) => ScanLine(st, lines[|lines| - 1])
  }

  /** `job_data_list`: the closed records, then the open one if it is not empty. */
  function Records(lines: seq<string>): Result<seq<Record>> {
    match ScanAll(lines)
    case Err(e) => Err(e)
    case Ok(st) => Ok(if st.open != map[] then st.done + [st.open] else st.done)
  }

  /** The lines between separators: a separator line starts a new group and belongs to
      none. */
  function Groups(lines: seq<string>): (gs: seq<seq<string>>)
    ensures |gs| >= 1
    decreases |lines|
  {
    if lines == [] then [[]] else AddLine(Groups(lines[..|lines| - 1]), lines[|lines| - 1])
  }

  function AddLine(gs: seq<seq<string>>, line: string): (r: seq<seq<string>>)
    requires |gs| >= 1
    ensures |r| >= 1
  {
    if IsRecordSeparator(line) then gs + [[]] else gs[..|gs| - 1] + [gs[|gs| - 1] + [line]]
  }

  predicate HasFieldLine(g: seq<string>) {
    exists j | 0 <= j < |g| :: IsFieldLine(g[j])
  }

  /** The number of groups holding at least one field line. */
  function CountWithFields(gs: seq<seq<string>>): nat
    decreases |gs|
  {
    if gs == [] then 0
    else CountWithFields(gs[..|gs| - 1]) + if HasFieldLine(gs[|gs| - 1]) then 1 else 0
  }

  /** A key of the table. */
  predicate InTable(key: string) {
    exists k | 0 <= k < |FieldTable| :: FieldTable[k].0 == key
  }

  /** Every key of the record is a key of the table. */
  predicate TableRecord(rec: Record) {
    forall key :: key in rec ==> InTable(key)
  }

  /** A line that raises: a field line without ':'. */
  predicate IsBadLine(line: string) {
    IsFieldLine(line) && ':' !in line
  }

  /** The splitting loop of `format_qstat_output`: the records, or the IndexError of the
      first field line without ':'. */
  method SplitRecords(lines: seq<string>) returns (r: Result<seq<Record>>)
    ensures r == Records(lines)
    ensures r.Ok? ==> |r.value| == CountWithFields(Groups(lines))
    ensures r.Ok? ==> forall k :: 0 <= k < |r.value| ==> r.value[k] != map[] && TableRecord(r.value[k])
    ensures r.Err? <==> exists i :: 0 <= i < |lines| && IsBadLine(lines[i])
  {
    var done: seq<Record> := [];
    var open: Record := map[];
    for i := 0 to |lines|
      invariant ScanAll(lines[..i]) == Ok(Split(done, open))
    {
      ScanPrefix(lines, i);
      var line := lines[i];
      if IsBlank(line) {
        continue;
      }
      if IsRecordSeparator(line) {
        if open != map[] {
          done := done + [open];
        }
        open := map[];
        continue;
      }
      var captured := CaptureFields(open, line);
      if captured.Err? {
        ScanErrPersists(lines, i + 1);
        LinesSplit(lines);
        return Err(captured.error);
      }
      open := captured.value;
    }
    assert lines[..|lines|] == lines;
    if open != map[] {
      done := done + [open];
    }
    r := Ok(done);
    LinesSplit(lines);
  }

  /** The inner loop over the field table: the fields the line starts with are stored
      in the open record, and one without ':' raises. */
  method CaptureFields(rec: Record, line: string) returns (r: Result<Record>)
    ensures r == Capture(rec, line, |FieldTable|)
  {
    var open := rec;
    for k := 0 to |FieldTable|
      invariant Capture(rec, line, k) == Ok(open)
    {
      CaptureStep(rec, line, k);
      var key := FieldTable[k].0;
      if StartsWith(line, key) {
        var v := ValueOf(line);
        if v.None? {
          CaptureErrPersists(rec, line, k + 1, |FieldTable|);
          return Err(NoColon(line));
        }
        open := open[key := v.value];
      }
    }
    r := Ok(open);
  }

  /** One more line is one more step of the splitting loop. */
  lemma ScanPrefix(lines: seq<string>, i: nat)
    requires i < |lines|
    ensures ScanAll(lines[..i]).Err? ==> ScanAll(lines[..i + 1]) == ScanAll(lines[..i])
    ensures ScanAll(lines[..i]).Ok? ==> ScanAll(lines[..i + 1]) == ScanLine(ScanAll(lines[..i]).value, lines[i])
  {
    assert lines[..i + 1][..i] == lines[..i];
  }

  /** One more key of the table is one more step of the inner loop. */
  lemma CaptureStep(rec: Record, line: string, k: nat)
    requires k < |FieldTable|
    ensures var key := FieldTable[k].0; Capture(rec, line, k).Ok? ==> (
      && (!StartsWith(line, key) ==> Capture(rec, line, k + 1) == Capture(rec, line, k))
      && (StartsWith(line, key) && ValueOf(line).None? ==> Capture(rec, line, k + 1) == Err(NoColon(line)))
      && (StartsWith(line, key) && ValueOf(line).Some? ==>
            Capture(rec, line, k + 1) == Ok(Capture(rec, line, k).value[key := ValueOf(line).value])))
  {
  }

  /** Once the inner loop has raised, the later keys change nothing. */
  lemma {:induction false} CaptureErrPersists(rec: Record, line: string, k: nat, n: nat)
    requires k <= n <= |FieldTable| && Capture(rec, line, k).Err?
    ensures Capture(rec, line, n) == Capture(rec, line, k)
    decreases n
  {
    if k < n {
      CaptureErrPersists(rec, line, k, n - 1);
    }
  }

  /** Once the splitting loop has raised, the later lines change nothing. */
  lemma {:induction false} ScanErrPersists(lines: seq<string>, n: nat)
    requires n <= |lines| && ScanAll(lines[..n]).Err?
    ensures ScanAll(lines) == ScanAll(lines[..n])
    decreases |lines|
  {
    if n < |lines| {
      var front := lines[..|lines| - 1];
      assert front[..n] == lines[..n];
      ScanErrPersists(front, n);
    } else {
      assert lines[..n] == lines;
    }
  }

  /** A separator line is not blank. */
  lemma SeparatorNotBlank(line: string)
    ensures IsRecordSeparator(line) ==> !IsBlank(line)
  {
    if IsRecordSeparator(line) {
      var i :| 0 <= i <= |line| - 60 && OccursAt(line, Repeat('=', 60), i);
      assert line[i] == line[i..i + 60][0];
    }
  }

  lemma HasFieldLineSnoc(g: seq<string>, line: string)
    ensures HasFieldLine(g + [line]) <==> HasFieldLine(g) || IsFieldLine(line)
  {
    var h := g + [line];
    assert forall j :: 0 <= j < |g| ==> h[j] == g[j];
    assert h[|g|] == line;
  }

  /** What the splitter's state says about the lines read so far: the closed records are
      the groups before the last one that hold a field line, none of them is empty, the
      open record is non-empty exactly when the last group holds a field line, and only
      table keys occur. */
  predicate SplitAgrees(st: Split, gs: seq<seq<string>>)
    requires |gs| >= 1
  {
    && |st.done| == CountWithFields(gs[..|gs| - 1])
    && (st.open != map[] <==> HasFieldLine(gs[|gs| - 1]))
    && (forall k :: 0 <= k < |st.done| ==> st.done[k] != map[] && TableRecord(st.done[k]))
    && TableRecord(st.open)
  }

  /** A separator closes the open record when it holds a field and starts a new group. */
  lemma SeparatorAgrees(st: Split, gs: seq<seq<string>>, line: string)
    requires |gs| >= 1 && SplitAgrees(st, gs) && IsRecordSeparator(line)
    ensures SplitAgrees(Split(if st.open != map[] then st.done + [st.open] else st.done, map[]), AddLine(gs, line))
  {
    var gs2 := AddLine(gs, line);
    assert gs2[..|gs2| - 1] == gs;
    assert gs == gs[..|gs| - 1] + [gs[|gs| - 1]];
    assert !HasFieldLine([]);
  }

  /** A line that is not a separator joins the last group. */
  lemma JoinsLastGroup(gs: seq<seq<string>>, line: string)
    requires |gs| >= 1 && !IsRecordSeparator(line)
    ensures var gs2 := AddLine(gs, line); (
      && |gs2| == |gs| && gs2[..|gs2| - 1] == gs[..|gs| - 1]
      && (HasFieldLine(gs2[|gs2| - 1]) <==> HasFieldLine(gs[|gs| - 1]) || IsFieldLine(line)))
  {
    var gs2 := AddLine(gs, line);
    HasFieldLineSnoc(gs[|gs| - 1], line);
    assert gs2[|gs2| - 1] == gs[|gs| - 1] + [line];
  }

  /** A field line adds its fields to the open record. */
  lemma CaptureAgrees(st: Split, gs: seq<seq<string>>, line: string)
    requires |gs| >= 1 && SplitAgrees(st, gs) && !IsRecordSeparator(line) && !IsBlank(line)
    requires Capture(st.open, line, |FieldTable|).Ok?
    ensures SplitAgrees(Split(st.done, Capture(st.open, line, |FieldTable|).value), AddLine(gs, line))
  {
    CapturedRecord(st.open, line, Capture(st.open, line, |FieldTable|).value);
    JoinsLastGroup(gs, line);
  }

  /** A record the inner loop fills holds only table keys when the record it started
      from did, and it is empty only when that record was and the line starts with no key. */
  lemma CapturedRecord(rec: Record, line: string, r: Record)
    requires Capture(rec, line, |FieldTable|) == Ok(r) && TableRecord(rec)
    ensures TableRecord(r)
    ensures r != map[] <==> rec != map[] || MatchedKeys(line, |FieldTable|) != {}
  {
    CaptureSpec(rec, line, |FieldTable|);
    MatchedKeysHas(line, |FieldTable|);
    assert r.Keys == rec.Keys + MatchedKeys(line, |FieldTable|);
    if rec != map[] {
      var key :| key in rec;
      assert key in r;
    }
    if MatchedKeys(line, |FieldTable|) != {} {
      var key :| key in MatchedKeys(line, |FieldTable|);
      assert key in r;
    }
  }

  /** One line of the splitting loop keeps the state in agreement with the groups. */
  lemma LineAgrees(st: Split, gs: seq<seq<string>>, line: string)
    requires |gs| >= 1 && SplitAgrees(st, gs) && ScanLine(st, line).Ok?
    ensures SplitAgrees(ScanLine(st, line).value, AddLine(gs, line))
  {
    SeparatorNotBlank(line);
    if IsRecordSeparator(line) {
      SeparatorAgrees(st, gs, line);
    } else if IsBlank(line) {
      JoinsLastGroup(gs, line);
    } else {
      CaptureAgrees(st, gs, line);
    }
  }

  /** The splitter's state agrees with the groups of the lines. */
  lemma {:induction false} ScanAgrees(lines: seq<string>)
    requires ScanAll(lines).Ok?
    ensures SplitAgrees(ScanAll(lines).value, Groups(lines))
    decreases |lines|
  {
    if lines != [] {
      var front := lines[..|lines| - 1];
      ScanAgrees(front);
      LineAgrees(ScanAll(front).value, Groups(front), lines[|lines| - 1]);
    }
  }

  /** Line `i` is the first field line without ':'. */
  predicate FirstBadAt(lines: seq<string>, i: int) {
    0 <= i < |lines| && IsBadLine(lines[i]) && forall j :: 0 <= j < i ==> !IsBadLine(lines[j])
  }

  /** The index of the first field line without ':', if there is one. */
  function FirstBad(lines: seq<string>): (r: Option<nat>)
    ensures r.Some? ==> r.value < |lines|
    decreases |lines|
  {
    if lines == [] then None
    else
      match FirstBad(lines[..|lines| - 1])
      case Some(i) => Some(i)
      case None => if IsBadLine(lines[|lines| - 1]) then Some(|lines| - 1) else None
  }

  /** FirstBad finds the first bad line, and finds one exactly when there is one. */
  lemma {:induction false} FirstBadFinds(lines: seq<string>)
    ensures FirstBad(lines).None? <==> forall i :: 0 <= i < |lines| ==> !IsBadLine(lines[i])
    ensures FirstBad(lines).Some? ==> FirstBadAt(lines, FirstBad(lines).value)
    decreases |lines|
  {
    if lines != [] {
      FirstBadFinds(lines[..|lines| - 1]);
      FirstBadStep(lines);
    }
  }

  /** What FirstBad finds is kept over one more line. */
  lemma FirstBadStep(lines: seq<string>)
    requires lines != []
    requires var front := lines[..|lines| - 1];
      && (FirstBad(front).None? <==> forall i :: 0 <= i < |front| ==> !IsBadLine(front[i]))
      && (FirstBad(front).Some? ==> FirstBadAt(front, FirstBad(front).value))
    ensures FirstBad(lines).None? <==> forall i :: 0 <= i < |lines| ==> !IsBadLine(lines[i])
    ensures FirstBad(lines).Some? ==> FirstBadAt(lines, FirstBad(lines).value)
  {
    var front := lines[..|lines| - 1];
    assert forall j :: 0 <= j < |front| ==> front[j] == lines[j];
  }

  /** The splitting loop fails exactly when some line is a field line without ':', and
      then it names the first one. */
  lemma ScanFails(lines: seq<string>)
    ensures ScanAll(lines).Err? <==> exists i :: 0 <= i < |lines| && IsBadLine(lines[i])
    ensures ScanAll(lines).Err? ==> exists i :: FirstBadAt(lines, i) && ScanAll(lines).error == NoColon(lines[i])
  {
    ScanFailsAt(lines);
    FirstBadFinds(lines);
  }

  /** The loop raises at the first bad line. */
  lemma {:induction false} ScanFailsAt(lines: seq<string>)
    ensures ScanAll(lines).Err? <==> FirstBad(lines).Some?
    ensures ScanAll(lines).Err? ==> ScanAll(lines).error == NoColon(lines[FirstBad(lines).value])
    decreases |lines|
  {
    if lines != [] {
      var front := lines[..|lines| - 1];
      ScanFailsAt(front);
      if ScanAll(front).Ok? {
        ScanLineFails(ScanAll(front).value, lines[|lines| - 1]);
      } else {
        assert lines[FirstBad(lines).value] == front[FirstBad(front).value];
      }
    }
  }

  /** One line raises exactly when it is a field line without ':'. */
  lemma ScanLineFails(st: Split, line: string)
    ensures ScanLine(st, line).Err? <==> IsBadLine(line)
    ensures ScanLine(st, line).Err? ==> ScanLine(st, line) == Err(NoColon(line))
  {
    CaptureSpec(st.open, line, |FieldTable|);
  }

  /** The records come from the groups: one per group holding a field line, none empty,
      and the split fails exactly when some field line has no ':'. */
  lemma LinesSplit(lines: seq<string>)
    ensures Records(lines).Ok? ==> |Records(lines).value| == CountWithFields(Groups(lines))
    ensures Records(lines).Ok? ==> forall k :: 0 <= k < |Records(lines).value| ==>
      Records(lines).value[k] != map[] && TableRecord(Records(lines).value[k])
    ensures Records(lines).Err? <==> exists i :: 0 <= i < |lines| && IsBadLine(lines[i])
  {
    ScanFails(lines);
    if ScanAll(lines).Ok? {
      ScanAgrees(lines);
    }
    var gs := Groups(lines);
    assert gs[..|gs|] == gs[..|gs| - 1] + [gs[|gs| - 1]];
    assert gs[..|gs|] == gs;
  }

  /** `f'{key}({cn_name}):'` */
  function FieldName(entry: (string, string)): string {
    entry.0 + "(" + entry.1 + "):"
  }

  /** `f"{name:<35} {value}"`: the name padded with spaces to 35 characters, never cut,
      then a space and the value. */
  function Labelled(name: string, value: string): (r: string)
    ensures |r| >= |name| && r[..|name|] == name
    ensures |name| <= 35 ==> |r| == 36 + |value| && r[36..] == value && forall i :: |name| <= i < 36 ==> r[i] == ' '
    ensures |name| > 35 ==> r == name + " " + value
  {
    var padded := LJust(name, 35);
    var r := padded + " " + value;
    assert r[..|padded|] == padded;
    assert r[..|name|] == padded[..|name|];
    r
  }

  /** The indices below `n` of the table entries whose key the record holds, in table
      order. */
  function Present(rec: Record, table: seq<(string, string)>, n: nat): (ks: seq<nat>)
    requires n <= |table|
    ensures forall m :: 0 <= m < |ks| ==> ks[m] < n && table[ks[m]].0 in rec
  {
    if n == 0 then []
    else Present(rec, table, n - 1) + if table[n - 1].0 in rec then [n - 1] else []
  }

  /** Present lists each index whose key the record holds, once, in increasing order. */
  lemma {:induction false} PresentOrdered(rec: Record, table: seq<(string, string)>, n: nat)
    requires n <= |table|
    ensures var ks := Present(rec, table, n);
      && (forall m, m' :: 0 <= m < m' < |ks| ==> ks[m] < ks[m'])
      && (forall k :: 0 <= k < n && table[k].0 in rec ==> k in ks)
    decreases n
  {
    if n > 0 {
      PresentOrdered(rec, table, n - 1);
    }
  }

  /** The field lines of a record over the first `n` entries of the table. */
  function FieldLines(rec: Record, table: seq<(string, string)>, n: nat): (r: seq<string>)
    requires n <= |table|
    ensures |r| == |Present(rec, table, n)|
    ensures forall m :: 0 <= m < |r| ==> (
      var k := Present(rec, table, n)[m];
      r[m] == Labelled(FieldName(table[k]), rec[table[k].0]))
  {
    if n == 0 then []
    else
      var key := table[n - 1].0;
      FieldLines(rec, table, n - 1) + if key in rec then [Labelled(FieldName(table[n - 1]), rec[key])] else []
  }

  const NodeLabel := "computer_node(所在节点):"

  /** `job_data.get('job_number', '')` */
  function JobNumberOf(rec: Record): string {
    if "job_number" in rec then rec["job_number"] else ""
  }

  /** The block of one record: the separator, its fields in table order, and the node
      its job runs on as the queue index knows it. */
  function Block(rec: Record, jobInfo: map<string, string>): (b: seq<string>)
    ensures |b| == |Present(rec, FieldTable, |FieldTable|)| + 2 && b[0] == Repeat('=', 60)
    ensures b[1..|b| - 1] == FieldLines(rec, FieldTable, |FieldTable|)
    ensures b[|b| - 1] == Labelled(NodeLabel, NodeOf(jobInfo, JobNumberOf(rec)))
    ensures b[|b| - 1][..|NodeLabel|] == NodeLabel && b[|b| - 1][36..] == NodeOf(jobInfo, JobNumberOf(rec))
  {
    [Repeat('=', 60)] + FieldLines(rec, FieldTable, |FieldTable|) + [Labelled(NodeLabel, NodeOf(jobInfo, JobNumberOf(rec)))]
  }

  /** `formatted_output`: the blocks of the records, one after the other. */
  function Blocks(records: seq<Record>, jobInfo: map<string, string>): seq<string>
    decreases |records|
  {
    if records == [] then []
    else Blocks(records[..|records| - 1], jobInfo) + Block(records[|records| - 1], jobInfo)
  }

  /** The inner rendering loop: a line for each table key the record holds. */
  method RenderFields(rec: Record, table: seq<(string, string)>) returns (out: seq<string>)
    ensures out == FieldLines(rec, table, |table|)
  {
    out := [];
    for k := 0 to |table|
      invariant out == FieldLines(rec, table, k)
    {
      var key, caption := table[k].0, table[k].1;
      if key in rec {
        out := out + [Labelled(key + "(" + caption + "):", rec[key])];
      }
    }
  }

  /** The body of the rendering loop for one record. */
  method RenderBlock(rec: Record, jobInfo: map<string, string>) returns (out: seq<string>)
    ensures out == Block(rec, jobInfo)
  {
    var fields := RenderFields(rec, FieldTable);
    var id := if "job_number" in rec then rec["job_number"] else "";
    out := [Repeat('=', 60)] + fields + [Labelled(NodeLabel, NodeOf(jobInfo, id))];
  }

  /** The rendering loop of `format_qstat_output`: the blocks of all records, in order. */
  method RenderDetailed(records: seq<Record>, jobInfo: map<string, string>) returns (out: seq<string>)
    ensures out == Blocks(records, jobInfo)
  {
    out := [];
    for i := 0 to |records|
      invariant out == Blocks(records[..i], jobInfo)
    {
      assert records[..i + 1][..i] == records[..i];
      var block := RenderBlock(records[i], jobInfo);
      out := out + block;
    }
    assert records[..|records|] == records;
  }

  /** The keys of the first `n` table entries. */
  function KeysUpTo(table: seq<(string, string)>, n: nat): set<string>
    requires n <= |table|
  {
    if n == 0 then {} else KeysUpTo(table, n - 1) + {table[n - 1].0}
  }

  /** A key is among the first `n` exactly when one of the first `n` entries has it. */
  lemma {:induction false} KeysUpToHas(table: seq<(string, string)>, n: nat)
    requires n <= |table|
    ensures forall key :: key in KeysUpTo(table, n) <==> exists k | 0 <= k < n :: table[k].0 == key
  {
    if n > 0 {
      KeysUpToHas(table, n - 1);
    }
  }

  /** No key occurs twice in the field table. */
  lemma FieldTableDistinct()
    ensures forall i, j :: 0 <= i < j < |FieldTable| ==> FieldTable[i].0 != FieldTable[j].0
  {
    forall i, j | 0 <= i < j < |FieldTable|
      ensures FieldTable[i].0 != FieldTable[j].0
    {
      KeyDiffers(i, j);
    }
  }

  lemma KeyDiffers(i: nat, j: nat)
    requires i < j < |FieldTable|
    ensures FieldTable[i].0 != FieldTable[j].0
  {
    var a, b := FieldTable[i].0, FieldTable[j].0;
    assert |a| != |b| || a[..3] != b[..3] || a != b;
  }

  /** The field lines count the record's keys among the first `n` of the table. */
  lemma {:induction false} PresentCount(rec: Record, table: seq<(string, string)>, n: nat)
    requires n <= |table|
    requires forall i, j :: 0 <= i < j < |table| ==> table[i].0 != table[j].0
    ensures |Present(rec, table, n)| == |rec.Keys * KeysUpTo(table, n)|
    decreases n
  {
    if n > 0 {
      PresentCount(rec, table, n - 1);
      PresentCountStep(rec, table, n);
    }
  }

  /** The count is kept when one more entry of the table is taken in. */
  lemma PresentCountStep(rec: Record, table: seq<(string, string)>, n: nat)
    requires 0 < n <= |table|
    requires forall i, j :: 0 <= i < j < |table| ==> table[i].0 != table[j].0
    requires |Present(rec, table, n - 1)| == |rec.Keys * KeysUpTo(table, n - 1)|
    ensures |Present(rec, table, n)| == |rec.Keys * KeysUpTo(table, n)|
  {
    var key := table[n - 1].0;
    KeyNotEarlier(table, n - 1);
    PresentSnoc(rec, table, n);
    var seen, more := KeysUpTo(table, n - 1), KeysUpTo(table, n);
    CountOneMore(rec.Keys, seen, key, more, |Present(rec, table, n - 1)|, |Present(rec, table, n)|);
  }

  /** One more table entry adds its index exactly when the record holds its key. */
  lemma PresentSnoc(rec: Record, table: seq<(string, string)>, n: nat)
    requires 0 < n <= |table|
    ensures |Present(rec, table, n)| == |Present(rec, table, n - 1)| + if table[n - 1].0 in rec.Keys then 1 else 0
    ensures KeysUpTo(table, n) == KeysUpTo(table, n - 1) + {table[n - 1].0}
  {
  }

  /** With distinct keys, entry `n` has a key none of the entries before it has. */
  lemma KeyNotEarlier(table: seq<(string, string)>, n: nat)
    requires n < |table|
    requires forall i, j :: 0 <= i < j < |table| ==> table[i].0 != table[j].0
    ensures table[n].0 !in KeysUpTo(table, n)
  {
    KeysUpToHas(table, n);
  }

  /** Adding a new key to a set adds one to its meet with `keys` exactly when `keys` holds it. */
  lemma CountOneMore(keys: set<string>, seen: set<string>, key: string, more: set<string>, before: nat, after: nat)
    requires key !in seen && more == seen + {key}
    requires before == |keys * seen| && after == before + if key in keys then 1 else 0
    ensures after == |keys * more|
  {
    if key in keys {
      assert keys * more == keys * seen + {key};
    } else {
      assert keys * more == keys * seen;
    }
  }

  /** A record with k fields renders as k + 2 lines. */
  lemma BlockSize(rec: Record, jobInfo: map<string, string>)
    requires TableRecord(rec)
    ensures |Block(rec, jobInfo)| == |rec| + 2
  {
    FieldTableDistinct();
    PresentCount(rec, FieldTable, |FieldTable|);
    KeysUpToHas(FieldTable, |FieldTable|);
    assert rec.Keys * KeysUpTo(FieldTable, |FieldTable|) == rec.Keys;
  }

  /** Every name `key(label):` of the table fits in the 35-character column, so every
      value starts at column 36. */
  lemma FieldNamesFit()
    ensures forall k :: 0 <= k < |FieldTable| ==> |FieldName(FieldTable[k])| <= 35
  {
    forall k | 0 <= k < |FieldTable|
      ensures |FieldName(FieldTable[k])| <= 35
    {
      NameFits(k);
    }
  }

  lemma NameFits(k: nat)
    requires k < |FieldTable|
    ensures |FieldName(FieldTable[k])| <= 35
  {
    var e := FieldTable[k];
    assert |FieldName(e)| == |e.0| + |e.1| + 3;
  }

  /** The number of lines the blocks of the records take. */
  function TotalLines(records: seq<Record>): nat
    decreases |records|
  {
    if records == [] then 0 else TotalLines(records[..|records| - 1]) + |records[|records| - 1]| + 2
  }

  lemma {:induction false} BlocksSize(records: seq<Record>, jobInfo: map<string, string>)
    requires forall k :: 0 <= k < |records| ==> TableRecord(records[k])
    ensures |Blocks(records, jobInfo)| == TotalLines(records)
    decreases |records|
  {
    if records != [] {
      var front := records[..|records| - 1];
      assert forall k :: 0 <= k < |front| ==> front[k] == records[k];
      BlocksSize(front, jobInfo);
      BlockSize(records[|records| - 1], jobInfo);
    }
  }

  /** The text the detailed view hands to the pager: the block lines joined with
      newlines, or the exception that ended the split. */
  function DetailedRun(lines: seq<string>, jobInfo: map<string, string>): Result<string> {
    match Records(lines)
    case Err(e) => Err(e)
    case Ok(records) => Ok(Join("\n", Blocks(records, jobInfo)))
  }

  /** `format_qstat_output(output, job_info, detail=True)` */
  method FormatDetailed(output: string, jobInfo: map<string, string>) returns (r: Result<string>)
    ensures r == DetailedRun(SplitLines(output), jobInfo)
    ensures r.Err? <==> exists i :: 0 <= i < |SplitLines(output)| && IsBadLine(SplitLines(output)[i])
  {
    var lines := SplitLines(output);
    var records := SplitRecords(lines);
    if records.Err? {
      return Err(records.error);
    }
    var out := RenderDetailed(records.value, jobInfo);
    return Ok(Join("\n", out));
  }

  /** A successful detailed view renders one block per group of lines holding a field
      line, and each block takes its record's field count plus two lines. */
  lemma DetailedLineCount(lines: seq<string>, jobInfo: map<string, string>)
    requires Records(lines).Ok?
    ensures var records := Records(lines).value;
      && |records| == CountWithFields(Groups(lines))
      && |Blocks(records, jobInfo)| == TotalLines(records)
  {
    LinesSplit(lines);
    BlocksSize(Records(lines).value, jobInfo);
  }
}
