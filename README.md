# jobview `show_status.py` in Dafny

`show_status.py` is a command line viewer for Sun Grid Engine jobs. It runs
`qstat -u <user>` and builds a *queue index*, a map from job id to the queue instance
(`queue@host`) the job runs in. It then chooses the job ids to describe: the one given
with `--job_id`, or every id in the index. It runs `qstat -j <id,id,...>` and shows the
result in one of two views:

- the **compact view**, where one `item` record is updated line by line by five regular
  expressions and printed as six console lines at each separator line and once more at
  the end, with the submission time rewritten as `YYYY-MM-DD HH:MM:SS`;
- the **detailed view** (`--detail`), where the output is split into job records at the
  60-character `=` lines, each record keeps the fields of a fixed table, and each record
  is rendered as a block of labelled lines ending in the job's node, for the pager.

The model is one Dafny module per part of the script:

| module | file | what it holds |
|---|---|---|
| `Base` | base.dfy | `Option`, `Result` and the exceptions that end a run |
| `Text` | text.dfy | the Python string operations the script uses (`\s`, `strip`, `startswith`, `in`, `ljust`, `join`, `split`, `splitlines`) |
| `QueueIndex` | queue_index.dfy | the queue regex, the index loop and the dictionary's key order |
| `Timestamp` | timestamp.dfy | the `strptime`/`strftime` rewrite of a submission time |
| `Compact` | compact.dfy | the five patterns, the `if/elif` chain, `print_item` and the compact loop |
| `Detailed` | detailed.dfy | the field table, the record splitter and the block renderer |
| `ShowStatus` | show_status.dfy | the two commands, the choice of job ids and `main` |

Each loop of the script is a method with a loop: `QueueIndex.BuildQueueIndex`,
`Compact.FormatCompact`, `Detailed.SplitRecords` and `Detailed.RenderFields` /
`RenderDetailed`. Each is proved equal to a left fold over the lines (`JobInfo`,
`CompactRun`, `Records`, `Blocks`), and the properties the script promises are lemmas
about those folds. The regular expressions are written out by hand for these patterns
only; each doc comment says how the greedy quantifiers resolve.

The outputs of `qstat -u` and `qstat -j`, the exit status of `qstat -j` and the `USER`
variable are parameters of `ShowStatus.Run`. Its results are the commands the run issues,
the console lines it prints, the text it hands to `less -SN` and the exception that ended
it, if any.

## Model

| member | source | states |
|---|---|---|
| Text.RunEnd | show_status.py:33 | the end of the longest run of `\d`, `\s` or `\S` from a position: every character before it is in the class and the one at it is not |
| Text.RunEndIs | show_status.py:33 | a run of class characters that cannot be extended is the one `RunEnd` finds |
| Text.Token | show_status.py:33 | the maximal non-space run at a position holds no white space |
| Text.Repeat | show_status.py:93 | `c * n` has length n and every character is c |
| Text.LJust | show_status.py:167 | `:<35` pads with spaces on the right up to the width and never truncates; the original text is a prefix |
| Text.Strip | show_status.py:155 | `strip()` is a slice of the input with only white space cut off either side, starts and ends with a non-space, and is empty exactly when the input is blank |
| Text.IndexOf | show_status.py:155 | the first index of a character, or None exactly when it does not occur |
| Text.Split | show_status.py:46-47 | `split(c)` gives at least one part and no part holds the separator |
| Text.SplitJoin | show_status.py:46-47 | splitting the comma-joined parts gives the parts back when none holds a comma |
| Text.SplitFirst | show_status.py:46-47 | splitting at the first separator gives the part before it, then the split of the rest |
| Text.FirstBreak | show_status.py:64 | the first line-break character, with none before it |
| Text.SplitLines | show_status.py:64 | `splitlines()` yields lines free of line breaks, and none from an empty string |
| Text.SplitFirstLine | show_status.py:64 | a break-free line followed by `\n` is the first line of `splitlines()`, and the rest is split on |
| Text.SplitLinesJoin | show_status.py:173 | `"\n".join` of break-free lines, the last non-empty, splits back into those lines |
| Text.SplitTwoLines | show_status.py:27 | two break-free lines joined by `\n`, the second non-empty, split back into those two lines |
| Text.JoinSplit | show_status.py:46-47 | joining the pieces of a split with the separator gives the original text back |
| QueueIndex.LastQueueToken | show_status.py:33 | the rightmost `x@y` token after white space in a range, with no such token after it: the greedy `.+` leaves the last one to group 2 |
| QueueIndex.QueueMatchAt | show_status.py:33 | a match anchored at a position yields group 1 as a digit string at that position and group 2 as a whitespace-free token with an '@' neither first nor last that occurs in the line |
| QueueIndex.QueueSearch | show_status.py:33 | `re.search` from a position: the groups are a job id and a queue that both occur in the line |
| QueueIndex.QueueMatch | show_status.py:33-35 | the two groups of the pattern: a non-empty digit string and a queue token, both taken from the line |
| QueueIndex.Entries | show_status.py:27-35 | one entry per line, the header and blank lines contributing none |
| QueueIndex.BuildQueueIndex | show_status.py:26-39 | the loop builds the index of the lines and its key order; every key is a job id and every value a queue; the order lists exactly the keys |
| QueueIndex.JobInfoWellFormed | show_status.py:33-36 | every key of the index is a non-empty digit string and every value a whitespace-free token containing '@' |
| QueueIndex.AssignWellFormed | show_status.py:36 | assignments of well-formed pairs give a well-formed dictionary |
| QueueIndex.NonMatchingLineIgnored | show_status.py:29-34 | the header, a blank line or a line the pattern misses leaves the index and its key order unchanged |
| QueueIndex.AssignHas | show_status.py:36 | an id is a key exactly when some line assigned it |
| QueueIndex.AssignLastWins | show_status.py:36 | the value of a key comes from the last line that assigned it |
| QueueIndex.KeyOrderIsKeys | show_status.py:36 | the key order holds exactly the keys of the index, each once |
| QueueIndex.DistinctIdsCount | show_status.py:36 | when no two lines share a job id, the index has one key per matching line |
| QueueIndex.QueueMatchAtRow | show_status.py:33 | digits, one space, a column, and a last queue token anchor a match with those two groups |
| QueueIndex.TypicalRow | show_status.py:33-35 | a `qstat -u` row (padded id, other columns, the queue, columns without '@') yields that id and that queue |
| QueueIndex.SkipNonDigits | show_status.py:33 | positions holding no digit never start a match |
| QueueIndex.ExampleRow | show_status.py:33-35 | the row `101 ... compute@nodeA` yields `101 -> compute@nodeA` |
| QueueIndex.ExampleIndex | show_status.py:27-37 | an output made of a `job-ID` header line and the row `101 ... compute@nodeA` gives the index `{101: compute@nodeA}` |
| QueueIndex.HeaderThenRow | show_status.py:27-37 | a header line then one matching row leave exactly that row's entry in the index |
| QueueIndex.RowNotSkipped | show_status.py:29-30 | a line starting with a digit is neither skipped as the header nor as blank |
| Timestamp.DigitChar | show_status.py:87 | the digit character of a value below ten |
| Timestamp.Pad2 | show_status.py:87 | a value below 100 as two digits that read back as the value |
| Timestamp.Pad4 | show_status.py:87 | a value below 10000 as four digits that read back as the value |
| Timestamp.Lookup | show_status.py:86 | the 1-based position of a name in a list, or None exactly when it is absent |
| Timestamp.NextField | show_status.py:86 | a string splits into its leading non-space run and a rest that starts with white space or is empty |
| Timestamp.SkipSeparator | show_status.py:86 | a space of the format consumes all of one or more white-space characters, and fails on anything else |
| Timestamp.ParseCtime | show_status.py:86 | when `strptime(v, "%a %b %d %H:%M:%S %Y")` succeeds, the result is an instant a `datetime` can hold |
| Timestamp.ParseMonth | show_status.py:86 | the `%b` stage yields only valid instants |
| Timestamp.ParseDay | show_status.py:86 | the `%d` stage yields only valid instants |
| Timestamp.ParseTime | show_status.py:86 | the `%H:%M:%S` stage yields only valid instants |
| Timestamp.ParseYear | show_status.py:86 | the `%Y` stage, which must end the input, yields only valid instants |
| Timestamp.FormatIso | show_status.py:87 | `strftime("%Y-%m-%d %H:%M:%S")` has the `YYYY-MM-DD HH:MM:SS` shape and each field reads back as the instant's field |
| Timestamp.Reformat | show_status.py:86-87 | the rewrite, when it succeeds, has the `YYYY-MM-DD HH:MM:SS` shape |
| Timestamp.ParseCtimeFits | show_status.py:86 | strptime succeeds on a text exactly when it is a weekday name, a month name, a one- or two-digit day, an `H:M:S` clock of one- or two-digit fields and a four-digit year, separated by runs of white space, that spell a valid instant, and that instant is the result |
| Timestamp.ReformatFits | show_status.py:86-87 | the rewrite succeeds exactly on texts laid out as `%a %b %d %H:%M:%S %Y` that spell a valid instant, and gives that instant in `YYYY-MM-DD HH:MM:SS` form |
| Timestamp.SpelledParses | show_status.py:86 | a text laid out as the format that spells a valid instant is read as that instant |
| Timestamp.ParsedFields | show_status.py:86 | a text strptime accepts is laid out as the format and spells the instant returned |
| Timestamp.MonthSpelled | show_status.py:86 | from the month name on, a layout is read as the instant it spells, and starts with a non-space |
| Timestamp.DaySpelled | show_status.py:86 | from the day on, a layout is read as the instant it spells, and starts with a digit |
| Timestamp.TimeSpelled | show_status.py:86 | from the clock on, a layout is read as the instant it spells, and starts with a digit |
| Timestamp.ClockFits | show_status.py:86 | the clock `H:M:S` of short digit fields is read as its three numbers |
| Timestamp.ParsedClock | show_status.py:86 | an accepted clock is three short digit fields joined by `:` whose numbers are the ones read |
| Timestamp.ParsedTime | show_status.py:86 | what the clock-and-year stage accepted is a clock, a white-space gap and a four-digit year spelling the instant returned |
| Timestamp.MonthStep | show_status.py:86 | the month stage accepted a month name as the first field and went on after the gap |
| Timestamp.DayDigits | show_status.py:86 | the day as qstat prints it: one or two digits that read back as the day |
| Timestamp.NextFieldOf | show_status.py:86 | a field followed by white space is read as that field |
| Timestamp.SkipSeparatorOf | show_status.py:86 | a white-space gap before a non-space is consumed whole |
| Timestamp.MonthLookup | show_status.py:86 | each month abbreviation is found at its month number |
| Timestamp.ClockRoundTrip | show_status.py:86 | `HH:MM:SS` reads back as its hour, minute and second |
| Timestamp.CtimeRoundTrip | show_status.py:86 | the layout qstat prints, for every weekday and valid instant, is read back as that instant |
| Timestamp.ReformatCtime | show_status.py:86-87 | the rewrite turns qstat's layout into the `YYYY-MM-DD HH:MM:SS` text of the same instant |
| Timestamp.ExampleRewrite | show_status.py:86-87 | `Tue Jan  9 11:13:06 2024` becomes `2024-01-09 11:13:06` |
| Timestamp.RejectsLeadingSpace | show_status.py:86 | a value starting with white space raises |
| Timestamp.RejectsIso | show_status.py:86 | a value already in `YYYY-MM-DD HH:MM:SS` form raises |
| Compact.RestAfterSpace | show_status.py:73-74 | `\s+(.+)`: the group is a non-empty suffix of the line after white space only, and there is none exactly when no white space follows or it is the line's last character |
| Compact.LastSpace | show_status.py:75 | the last white-space index in a range, with none after it |
| Compact.DigitsAfterSpace | show_status.py:71 | `\s+(\d+)`: the group is a job id that follows white space |
| Compact.TokenAfterSpace | show_status.py:72 | `\s+(\S+)`: the group is a non-empty whitespace-free token that follows white space |
| Compact.AfterLastSpace | show_status.py:75 | `.+\s+(.+)`: the group is everything after the last white space that leaves a character for `.+`, and there is none exactly when no such white space exists |
| Compact.FieldMatchAtSpec | show_status.py:71-75 | a match at a position starts with the pattern's keyword there and has a non-empty group; a job number is digits and a job name has no white space |
| Compact.FieldSearchIsFirst | show_status.py:71-75 | `re.search` from a position tries each later position in turn and takes the first that matches |
| Compact.FirstSomeSpec | show_status.py:71-75 | the first match is None exactly when no outcome matches, and otherwise one before which none matches |
| Compact.FindLeftmost | show_status.py:71-75 | `re.search` gives the group of the leftmost matching position, or None exactly when no position matches |
| Compact.FindHasKeyword | show_status.py:71-75 | a line in which a pattern is found holds that pattern's keyword |
| Compact.FindGroup | show_status.py:71-75 | a found group is never empty, and a job_number group is a digit string |
| Compact.Classify | show_status.py:77-90 | a line takes the branch of the first pattern in chain order that matches, with that pattern's group; no earlier pattern matches |
| Compact.Kinds | show_status.py:69-93 | each line's branch and separator flag; no job-number group is empty |
| Compact.TimeShown | show_status.py:84-87 | the stored submission time is the placeholder `未知` as it is, otherwise the rewritten value in `YYYY-MM-DD HH:MM:SS` form, or None when strptime raises |
| Compact.Update | show_status.py:77-90 | a line changes at most the one field of its branch and leaves every other field as it was; a submission time strptime refuses raises |
| Compact.ApplyBranch | show_status.py:77-90 | the `if/elif` chain computes `Update` |
| Compact.PrintItem | show_status.py:51-60 | a 60-`=` line, then up to five lines each starting with its 14-character label; it fails exactly when a required key is missing, naming the first missing key after the lines already printed; otherwise the sixth line shows `exec_host` or `None` |
| Compact.LastValueSpec | show_status.py:77-90 | the group of the last line of a branch, or None exactly when no line takes it |
| Compact.FormatCompact | show_status.py:66-100 | the loop computes `CompactRun`; on success it returns `""` and prints six lines per emission plus six at the end |
| Compact.FailureAbsorbs | show_status.py:86 | once an exception is raised the later lines change nothing |
| Compact.ItemTracksLastValue | show_status.py:68-90 | the item is never reset: each field holds the group of the last line of its branch across all jobs, and a field no line set is absent |
| Compact.ConsoleCount | show_status.py:93-97 | each emission in the loop prints six lines |
| Compact.NoJobNumberNoOutput | show_status.py:93-97 | without a job_number line the loop prints nothing and never sets a job id |
| Compact.NoJobNumberFails | show_status.py:99 | without a job_number line the call prints nothing and raises, the KeyError of `item['job_id']` if nothing earlier did |
| Compact.BadTimestampAborts | show_status.py:86 | a submission time strptime refuses makes the whole call raise |
| Compact.BadTimeFails | show_status.py:86-87 | a submission time line whose value strptime refuses raises at that step |
| Compact.SuccessShape | show_status.py:93-100 | a successful call returns `""` and prints six lines per qualifying separator plus six |
| Compact.JobNumberLine | show_status.py:71-78 | `job_number:`, white space and an id take the first branch with that id |
| Compact.SubmissionLine | show_status.py:74-84 | a `submission_time:` line holding no earlier keyword takes its branch with the value |
| Compact.PrefixStep | show_status.py:69 | scanning one more line is one more step of the loop |
| Compact.OneJobScan | show_status.py:68-97 | a job printed separator first fills all five fields and prints nothing in the loop |
| Compact.QuietStep | show_status.py:77-90 | a field line that raises nothing only sets its field while nothing has been printed |
| Compact.PrintFull | show_status.py:51-60 | an item holding the five required keys prints its six labelled lines and raises nothing |
| Compact.FinishQuiet | show_status.py:99-100 | after a loop that printed nothing, the final emission prints the item's six lines and the call returns `""` |
| Compact.SingleJob | show_status.py:66-100 | a single job with all five fields is printed exactly once, as the six expected lines, and the call returns `""` |
| Detailed.MatchedKeysHas | show_status.py:153-154 | a key is matched exactly when it is in the table and the line starts with it |
| Detailed.ValueOf | show_status.py:155 | the stripped text after the first ':', or None exactly when the line has no ':' |
| Detailed.CaptureSpec | show_status.py:153-155 | the inner loop sets every key the line starts with to the line's value and keeps the others; it raises exactly when such a key exists and the line has no ':' |
| Detailed.CaptureFields | show_status.py:153-155 | the inner loop over the table computes `Capture` |
| Detailed.CapturedRecord | show_status.py:153-155 | a record of table keys stays one after a field line, and is non-empty exactly when it was or the line starts with a table key |
| Detailed.Groups | show_status.py:142-151 | the lines between separators form at least one group |
| Detailed.AddLine | show_status.py:147-151 | adding a line keeps at least one group |
| Detailed.SplitRecords | show_status.py:138-159 | the loop computes the records; on success there are as many records as groups holding a field line, each non-empty and holding table keys only; it raises exactly when some field line has no ':' |
| Detailed.CaptureErrPersists | show_status.py:153-155 | once the inner loop raises, the later keys change nothing |
| Detailed.ScanErrPersists | show_status.py:142-155 | once the loop raises, the later lines change nothing |
| Detailed.SeparatorNotBlank | show_status.py:143-147 | a separator line is never skipped as blank |
| Detailed.HasFieldLineSnoc | show_status.py:153-155 | a group holds a field line after one more line exactly when it did or that line is one |
| Detailed.SeparatorAgrees | show_status.py:147-151 | a separator pushes the open record only when it is non-empty and starts a new one |
| Detailed.JoinsLastGroup | show_status.py:143-155 | a line that is not a separator joins the last group |
| Detailed.CaptureAgrees | show_status.py:153-155 | a field line keeps the records in step with the groups |
| Detailed.LineAgrees | show_status.py:142-155 | every line of the loop keeps the records in step with the groups |
| Detailed.ScanAgrees | show_status.py:142-155 | there are as many closed records as groups before the last that hold a field line, none of them empty and all holding table keys only, and the open record is non-empty exactly when the last group holds a field line |
| Detailed.ScanFails | show_status.py:153-155 | the loop raises exactly when some field line has no ':', and then names the first such line |
| Detailed.ScanFailsAt | show_status.py:142-155 | the loop raises exactly when there is a first field line without ':', and the error names that line |
| Detailed.FirstBadFinds | show_status.py:142-155 | the first field line without ':' is found when one exists, with none before it |
| Detailed.ScanLineFails | show_status.py:153-155 | one line makes the loop raise exactly when it starts with a table key and has no ':', and the error names the line |
| Detailed.LinesSplit | show_status.py:142-159 | there are as many records as groups holding a field line, none empty and all holding table keys only, and the split raises exactly when some field line has no ':' |
| Detailed.Labelled | show_status.py:166-167 | the name starts the line; a name of at most 35 characters is padded with spaces and the value starts at column 36; a longer one is not cut |
| Detailed.Present | show_status.py:164-165 | the table positions whose key the record holds |
| Detailed.PresentOrdered | show_status.py:164-165 | every such position is listed once, in table order |
| Detailed.FieldLines | show_status.py:164-167 | one labelled line per table key the record holds, in table order |
| Detailed.Block | show_status.py:162-171 | a 60-`=` line, the field lines in table order, and a node line showing the queue of the record's `job_number` (looked up under `""` when absent) or `未找到节点` |
| Detailed.RenderFields | show_status.py:164-167 | the inner loop computes the field lines |
| Detailed.RenderBlock | show_status.py:162-171 | the loop body computes the block of one record |
| Detailed.RenderDetailed | show_status.py:162-171 | the loop computes the blocks of all records in order |
| Detailed.KeysUpToHas | show_status.py:104-136 | a key is among the first n keys of the table exactly when one of the first n entries carries it |
| Detailed.FieldTableDistinct | show_status.py:104-136 | no key appears twice in the field table |
| Detailed.KeyDiffers | show_status.py:104-136 | two table keys at different positions differ |
| Detailed.PresentCount | show_status.py:164-165 | the number of field lines is the number of the record's keys in the table |
| Detailed.BlockSize | show_status.py:162-171 | a record with k fields renders as k + 2 lines |
| Detailed.FieldNamesFit | show_status.py:166-167 | every `key(label):` of the table fits in 35 characters |
| Detailed.NameFits | show_status.py:166 | one table name fits in 35 characters |
| Detailed.BlocksSize | show_status.py:162-171 | the blocks take the sum of each record's field count plus two lines |
| Detailed.FormatDetailed | show_status.py:138-173 | the detailed view computes `DetailedRun`, the blocks joined with newlines, and raises exactly when some field line has no ':' |
| Detailed.DetailedLineCount | show_status.py:142-173 | a successful view renders one block per group holding a field line, each of its field count plus two lines |
| ShowStatus.DetailCommand | show_status.py:46-47 | `qstat -j ` followed by the ids joined with commas |
| ShowStatus.DetailCommandIds | show_status.py:46-47 | the ids read back from the command when none holds a comma |
| ShowStatus.IndexIdsRoundTrip | show_status.py:46-47 | the ids taken from the index always read back from the command |
| ShowStatus.ResolveUser | show_status.py:182-183 | a non-empty `--user` wins; otherwise `USER`, and `None` when it is unset |
| ShowStatus.SelectJobIds | show_status.py:189-197 | `--job_id` is used alone; otherwise all index ids in insertion order, with the announcement, and the no-jobs message exactly when the index is empty |
| ShowStatus.ExecuteCommand | show_status.py:13-18 | the standard output exactly when the status is zero, otherwise the exception with the standard error |
| ShowStatus.Run | show_status.py:180-205 | `qstat -u` always runs first; `qstat -j` runs exactly when there are ids; with the ids of `--job_id` or of the index; a failed `qstat -j` raises; the pager gets the detailed text exactly when it renders; the compact view prints the announcement then its own lines; with no ids only the "no jobs" message is printed and nothing is raised or paged; when `qstat -j` fails or the view is detailed, the console holds the announcement alone (or nothing for `--job_id`) |

## Left out

- The processes themselves: `subprocess.run` for `qstat -u`, `qstat -j` and `less -SN` are not run. The model takes their outputs as parameters and returns the commands and the pager text.
- The exit status of `qstat -u` is not checked by the script, so only its standard output is a parameter.
- `os.getenv("USER")` is a parameter of `ShowStatus.Run`.
- `click` option parsing and the `click.secho` colours are left out; only the text of each line is kept.
- `\s`, `\d` and `str.strip()` are modelled on ASCII: white space is six of the ten ASCII characters Python counts as white space (space, tab, newline, carriage return, vertical tab and form feed, but not the separators `\x1c`-`\x1f`), and digits are `0`-`9`. Python also counts those four separators, other Unicode white space and other Unicode digits.
- `.` in the patterns is modelled as any character. This is exact because the lines come from `splitlines()` and hold no `\n`.
- Timestamp.ParseCtime: weekday and month names must match the C-locale abbreviations exactly. Python's `strptime` ignores case and uses the current locale.
- Timestamp.FormatIso: the year is zero-padded to four digits. For years below 1000 the C library may print fewer.
- Compact.FormatCompact: the debug `print(job_info)` before each emission in the loop (the dictionary's repr) is left out. Its console is the `print_item` lines alone, and so is the count in its success clause.
- Duplicate job ids in `qstat -u` output make the last line win, so the index depends on line order. No order-independence is claimed; `QueueIndex.DistinctIdsCount` needs distinct ids.
- `get_job_details`' call to `execute_command` is modelled by `ShowStatus.ExecuteCommand` on a given result; the exception's message text is reduced to the standard error it carries.
