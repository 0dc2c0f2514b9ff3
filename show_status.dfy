/** The command line entry point of the status script: it resolves the user, builds the
    queue index from `qstat -u`, chooses the job ids, asks `qstat -j` for their details
    and shows them in the compact or the detailed view. The outputs of the two commands
    and the `USER` variable are parameters; the commands the run would issue, what it
    prints and what it would hand to the pager are its results. */
module ShowStatus {
  import opened Base
  import opened Text
  import opened QueueIndex
  import opened Compact
  import opened Detailed

  /** The command of `get_job_info_by_user`. */
  function ListCommand(user: string): string {
    "qstat -u " + user
  }

  const DetailPrefix := "qstat -j "

  /** The command of `get_job_details`: the ids joined with commas. */
  function DetailCommand(ids: seq<string>): (c: string)
    ensures |c| >= 9 && c[..9] == DetailPrefix && c[9..] == Join(",", ids)
  {
    DetailPrefix + Join(",", ids)
  }

  /** The ids can be read back from the detail command when none contains a comma. */
  lemma DetailCommandIds(ids: seq<string>)
    requires |ids| >= 1 && forall k :: 0 <= k < |ids| ==> ',' !in ids[k]
    ensures Text.Split(DetailCommand(ids)[9..], ',') == ids
  {
    assert Join(",", ids) == Join([','], ids);
    SplitJoin(ids, ',');
  }

  /** The ids the index yields are read back from the detail command. */
  lemma IndexIdsRoundTrip(lines: seq<string>)
    requires KeyOrder(Entries(lines)) != []
    ensures Text.Split(DetailCommand(KeyOrder(Entries(lines)))[9..], ',') == KeyOrder(Entries(lines))
  {
    var order := KeyOrder(Entries(lines));
    KeyOrderIsKeys(Entries(lines));
    JobInfoWellFormed(lines);
    forall k | 0 <= k < |order|
      ensures ',' !in order[k]
    {
      assert IsJobId(order[k]);
    }
    DetailCommandIds(order);
  }

  /** `if not user: user = get_current_user()`: an absent or empty `--user` falls back on
      `USER`, and an unset `USER` formats as `None`. */
  function ResolveUser(flag: Option<string>, env: Option<string>): (user: string)
    ensures flag.Some? && flag.value != "" ==> user == flag.value
    ensures (flag.None? || flag.value == "") && env.Some? ==> user == env.value
    ensures (flag.None? || flag.value == "") && env.None? ==> user == "None"
  {
    if flag.Some? && flag.value != "" then flag.value
    else if env.Some? then env.value
    else "None"
  }

  /** What `main` does with the job ids: stop with a message, or go on with ids and,
      when they came from the index, the line announcing them. */
  datatype Selection = NoJobs(message: string) | Jobs(ids: seq<string>, announcement: Option<string>)

  /** The job-id choice of `main`: an explicit `--job_id` is used alone; otherwise every
      id of the index, in insertion order, and none means there is nothing to ask for. */
  function SelectJobIds(jobIdFlag: Option<string>, order: seq<string>, user: string): (s: Selection)
    ensures jobIdFlag.Some? && jobIdFlag.value != "" ==> s == Jobs([jobIdFlag.value], None)
    ensures (jobIdFlag.None? || jobIdFlag.value == "") ==> (s.NoJobs? <==> order == [])
    ensures (jobIdFlag.None? || jobIdFlag.value == "") && s.Jobs? ==>
      s.ids == order && s.announcement == Some("找到以下作业ID: " + Join(", ", order))
    ensures s.NoJobs? ==> s.message == "没有找到用户 " + user + " 的作业。"
  {
    if jobIdFlag.Some? && jobIdFlag.value != "" then Jobs([jobIdFlag.value], None)
    else if order == [] then NoJobs("没有找到用户 " + user + " 的作业。")
    else Jobs(order, Some("找到以下作业ID: " + Join(", ", order)))
  }

  /** What a command returned: its exit status and its two output streams. */
  datatype CommandResult = CommandResult(status: int, stdout: string, stderr: string)

  /** `execute_command`: the standard output, or the exception for a non-zero status. */
  function ExecuteCommand(r: CommandResult): (out: Result<string>)
    ensures out.Ok? <==> r.status == 0
    ensures out.Ok? ==> out.value == r.stdout
    ensures out.Err? ==> out.error == CommandFailed(r.stderr)
  {
    if r.status != 0 then Err(CommandFailed(r.stderr)) else Ok(r.stdout)
  }

  /** A run of `main`: the commands it issues, the console lines it prints, the text it
      hands to `less -SN`, and the exception that ended it, if any. */
  datatype Outcome = Outcome(commands: seq<string>, console: seq<string>, pager: Option<string>, error: Option<Error>)

  /** `main(user, job_id, detail)`, given the `USER` variable, the standard output of
      `qstat -u` (its status is not checked) and the result of `qstat -j`. */
  method Run(userFlag: Option<string>, jobIdFlag: Option<string>, detail: bool, env: Option<string>,
             listOutput: string, details: CommandResult) returns (o: Outcome)
    ensures var user := ResolveUser(userFlag, env); |o.commands| >= 1 && o.commands[0] == ListCommand(user)
    ensures var order := KeyOrder(Entries(SplitLines(listOutput)));
      |o.commands| == 1 <==> (jobIdFlag.None? || jobIdFlag.value == "") && order == []
    ensures jobIdFlag.Some? && jobIdFlag.value != "" ==> o.commands == [ListCommand(ResolveUser(userFlag, env)), DetailCommand([jobIdFlag.value])]
    ensures var order := KeyOrder(Entries(SplitLines(listOutput)));
      (jobIdFlag.None? || jobIdFlag.value == "") && order != [] ==>
        && o.commands == [ListCommand(ResolveUser(userFlag, env)), DetailCommand(order)]
        && o.console != [] && o.console[0] == "找到以下作业ID: " + Join(", ", order)
    ensures |o.commands| == 1 ==>
      && o.console == ["没有找到用户 " + ResolveUser(userFlag, env) + " 的作业。"]
      && o.pager.None? && o.error.None?
    ensures var fromIndex := jobIdFlag.None? || jobIdFlag.value == "";
      var order := KeyOrder(Entries(SplitLines(listOutput)));
      |o.commands| == 2 && (details.status != 0 || detail) ==>
        o.console == (if fromIndex then ["找到以下作业ID: " + Join(", ", order)] else [])
    ensures |o.commands| == 2 && details.status != 0 ==> o.error == Some(CommandFailed(details.stderr)) && o.pager.None?
    ensures o.pager.Some? ==>
      && detail && o.error.None? && details.status == 0
      && Ok(o.pager.value) == DetailedRun(SplitLines(details.stdout), JobInfo(SplitLines(listOutput)))
    ensures var r := DetailedRun(SplitLines(details.stdout), JobInfo(SplitLines(listOutput)));
      |o.commands| == 2 && details.status == 0 && detail ==>
        (o.pager.Some? <==> r.Ok?) && (r.Err? ==> o.error == Some(r.error))
    ensures var c := CompactRun(SplitLines(details.stdout), JobInfo(SplitLines(listOutput)));
      var fromIndex := jobIdFlag.None? || jobIdFlag.value == "";
      var order := KeyOrder(Entries(SplitLines(listOutput)));
      |o.commands| == 2 && details.status == 0 && !detail ==>
        && o.pager.None?
        && o.console == (if fromIndex then ["找到以下作业ID: " + Join(", ", order)] else []) + c.0
        && (o.error.None? <==> c.1.Ok?)
        && (c.1.Err? ==> o.error == Some(c.1.error))
  {
    var user := ResolveUser(userFlag, env);
    var jobInfo, order := BuildQueueIndex(SplitLines(listOutput));
    o := Outcome([ListCommand(user)], [], None, None);
    var selection := SelectJobIds(jobIdFlag, order, user);
    if selection.NoJobs? {
      o := o.(console := [selection.message]);
      return;
    }
    if selection.announcement.Some? {
      o := o.(console := [selection.announcement.value]);
    }
    o := o.(commands := o.commands + [DetailCommand(selection.ids)]);
    var output := ExecuteCommand(details);
    if output.Err? {
      o := o.(error := Some(output.error));
      return;
    }
    if detail {
      var text := FormatDetailed(output.value, jobInfo);
      if text.Err? {
        o := o.(error := Some(text.error));
        return;
      }
      o := o.(pager := Some(text.value));
    } else {
      var console, result := FormatCompact(output.value, jobInfo);
      o := o.(console := o.console + console);
      if result.Err? {
        o := o.(error := Some(result.error));
      }
    }
  }
}
