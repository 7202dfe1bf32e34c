# A model of kelso and kproxy

kelso runs self-hosted apps on one machine; kproxy is the egress proxy its apps reach the
network through. This project models the parts of both that are logic rather than I/O, and
proves what their documentation and tests promise of them.

- **kproxy's decision engine.** Any number of connections are checked without a lock
  against a snapshot of the rules, while writers replace it under a mutex: persist, prune,
  swap, close. `EngineSteps` is that protocol as an interleaving of atomic steps,
  `EngineInvariant` what every step keeps, `EngineTheorems` what every run guarantees, and
  `EngineObject` the object's own methods.
- **kproxy's rules.** `RuleTable` is the longest-suffix lookup, `RulesText` the text format
  a restart reads back, `RulesMeaning` exactly what it accepts, `RulesErrors` which line an
  error is about, `RootDomain` public suffixes.
- **kproxy's counters and routing.** `StatsSteps` interleaves connections that are being
  counted; `ProxyRoute` is `route` and the counters it moves.
- **Cron.** `Calendar`, `CronSearch`, `CronHorizon` and `CronParse` are a schedule and its
  jumping search over the Gregorian calendar; `CronSteps` and `CronTick` the tick protocol
  that runs what is due.
- **The log.** `LogTable`, `LogObject` and `LogText` are the append-only log of set, del and
  clr records, its compaction and its file. `ChangesSinceStart`, `Rekeying`, `KelsoDb` and
  `Ports` stand on it: detecting unapplied changes, moving secrets to a new key, host ports.
- **Backup retention.** `Retention` is the union of greedy bucket selections.
- **The job queue.** `JobQueue` interleaves submitters and the worker; `JobRunnerObject` is
  the runner's own code.

`Wrappers`, `Text`, `Decimal`, `Orders` and `Sums` are helpers: options and results,
strings, numerals, sorting, and sums over maps.

Code that changes things step by step is a class or a method with its loop, proved against
a specification function; what is promised is then proved about that function. What runs
concurrently is a step system: a state, the steps enabled in it, and `Run`, a sequence of
states joined by steps. A theorem about runs holds of every interleaving of any length.

Calls into code outside the model are parameters: `ip` is `net.ParseIP` (of which only the
characters of an address are used), `psl` the Public Suffix List (a suffix is a label suffix
of its host), a log's `fits` is `validate_value` of the text a value is written as, `isTs`
is `datetime.fromisoformat` accepting a text, the buckets of a `Selection` are `strftime`,
`Crypto` is encryption with decrypt-after-encrypt, and the size of a log's file is a
function of its records.

## Where the code falls short of a plain reading

Each of these has a concrete run or input, and a theorem for all of them that says when it
does hold.

- A listed host can be one that the current rules decide: `DecidedHostCanBeListed`. Whenever
  one is, a check that held a superseded snapshot marked it, after the last publish:
  `StaleHostWasMarkedLate`. The next publish drops it (`PublishLeavesOnlyUndecided`).
- A check can time out although its channel is closed and the current rules allow its host:
  `TimeoutCanBeatWakeup`. That takes a superseded snapshot; a timeout on the current one has
  rules that hold the host back: `TimeoutHidesOnlyLateDecisions`.
- Compaction can lose a pending change: in the same second as a start
  (`SameSecondLosesChange`) or once a rekey has replaced its record
  (`RekeyThenCompactLosesChange`). `FlagAfterCompaction` says for every log of sets what
  compaction makes of a flag, `CompactKeepsFlagExactly` exactly when it keeps it, and
  `RekeyKeepsFlagExactly` exactly when a rekey whose appends compact the log does.
- A value with a carriage return is not read back as it was written: `CutAtReturn`;
  `AppendReadsBack` is the if-and-only-if.
- A schedule that only 29 February matches makes `next_after` raise once its last time on
  2096-02-29 has gone by: `HorizonIsSharp`; `LeapOnlyRaisesExactly` says when it raises, from
  every instant.
- A job whose context could not be built, by a ValueError or RuntimeError, stays queued for
  good and blocks the scheduling of its verb: `StrandingRun` and `StrandedForGood`.
- A rekey can stop part-way by itself, on a secret that fits a value of the log when it is
  set and no longer does with the rekey's mark: `LongSecretStopsRekey`. With Fernet's lengths
  and values that fit, a rekey goes through exactly when no app has a secret of 1440 to 1455
  bytes that the old key reads (`RekeyAll`); kelsodb never stops it. Wherever a rekey ends or
  dies, each value is as it was or moved: `AnyStopIsReadable`.
- A pinned port is not checked against those on file: `PinnedPortsCanClash`. With pinned
  ports a load keeps all ports distinct exactly when each is on no other app's route and no
  earlier route was given it: `LoadDistinctExactly`.

Where a comment and the code disagree the model follows the code. `kelso/lib/rekey.py:51`
says every write of a rekey is an append; an append can bring on a compaction, after which
no lines are left to delete (`Rekeying.AnyPrefixIsReadable` has both cases). `kproxy/stats.go:38` says
the table is bounded by 10000 keys; one "other" key for each scheme comes on top.

## Model

| member | source | states |
|---|---|---|
| RuleTable.WalkFindsLongest | kproxy/rules.go:64-75 | The label walk returns a name exactly when it is the longest of the table's names that the host is or ends in after a dot, and nothing exactly when there is no such name. |
| RuleTable.Lookup | kproxy/rules.go:64-75 | The loop finds a rule if and only if some name covers the host, and it is the rule of the longest one. |
| RuleTable.DecideChangesExactly | kproxy/engine.go:170-181 | Setting a rule for d moves exactly the hosts under d that no longer name answers for, all to d. |
| RuleTable.RemoveChangesExactly | kproxy/engine.go:183-196 | Removing d moves exactly the hosts it answered for, each to the longest match that is left. |
| RuleTable.DecideThenRemove | kproxy/engine.go:170-196 | Deciding a fresh name and removing it gives back every lookup. |
| RuleTable.UndecidedMeans | kproxy/engine.go:73-92 | A host is left to ask about if and only if the policy is ask and no name covers it. |
| RuleTable.DecisionMeans | kproxy/engine.go:73-85 | A host is let through to a target if and only if the longest name covering it is allowed with that target, or no name covers it and the policy is allow; turned away if and only if that name is denied, or none covers it and the policy is deny; else left to ask about. |
| RulesText.RuleNameIdempotent | kproxy/rules.go:145-156 | A normalized rule name is its own normal form. |
| RulesText.NewRuleIdempotent | kproxy/rules.go:78-106 | A rule built from a verdict and target is built again from its own verdict and target. |
| RulesText.SplitUndoesJoin | kproxy/rules.go:86-105 | Splitting a joined host and port gives both back, with and without brackets. |
| RulesText.NormHostMeans | kproxy/rules.go:108 | Hosts that differ in case, or in a dot at the end, have one normal form, and a host in small ASCII letters without that dot is its own. |
| RulesText.LowerCharMeans | kproxy/rules.go:108 | Outside ASCII two capitals have a small ASCII letter, and nothing else is changed. |
| RulesMeaning.PolicyMeans | kproxy/rules.go:26-32 | The three words for a policy, and no others. |
| RulesMeaning.VerdictMeans | kproxy/rules.go:41-47 | The two words for a verdict, and no others. |
| RulesMeaning.NameMeans | kproxy/rules.go:144-156 | A text is a rule name if and only if its normal form is labels of the allowed characters with dots between them and no address, and that form is the name. |
| RulesMeaning.SplitMeansHostPort | kproxy/rules.go:90-93 | A target splits into a host and a port if and only if it is HOST:PORT or [HOST]:PORT, without other brackets or colons. |
| RulesMeaning.RuleMeans | kproxy/rules.go:77-106 | A rule is made if and only if the target is empty, or the verdict is allow and the target an IPv4 address or a name with a port from 1 to 65535; the rule has that host in normal form and that port. |
| RulesMeaning.LineMeans | kproxy/rules.go:161-191 | By its fields, a line changes nothing, sets the default policy or gives one name one rule, and nothing else is accepted. |
| RulesMeaning.PutMeans | kproxy/admin.go:155-173 | The admin API takes a rule set if and only if its policy is one and its items are all names and rules; each name then has the rule of the last item that names it, and no other name has one. |
| Text.TrimSpaceMeans | kproxy/rules.go:162 | A trimmed text is the text without the spaces at its ends. |
| Text.FieldsMean | kproxy/rules.go:166 | The fields of a line are its runs of characters that are no spaces. |
| Text.SpacesAre | kproxy/rules.go:162-166 | The spaces, one by one (as unicode.IsSpace has them). |
| RulesText.ParseUndoesFormat | kproxy/rules.go:158-218 | For every canonical rule set and any fallback policy, parsing the formatted text gives the rule set. |
| RulesText.ParseUndoesListing | kproxy/rules.go:158-218 | So does text with the names in any order. |
| RulesText.FormatIsInjective | kproxy/rules.go:206-218 | Different canonical rule sets are written differently. |
| RulesText.AcceptedIsCanonical | kproxy/rules.go:158-193 | Everything the parser accepts is canonical. |
| RulesText.PutRulesSurvivesRestart | kproxy/admin.go:155-173 | What the admin API accepts is canonical, and writing and reading it back gives it again. |
| RulesText.VerdictKeepsCanonical | kproxy/engine.go:170-181 | Deciding a normalized name keeps the rules canonical. |
| RulesText.RemovalKeepsCanonical | kproxy/engine.go:183-196 | Removing a name keeps the rules canonical. |
| RulesText.SortedNames | kproxy/rules.go:195-202 | Gathering the names in any order and sorting gives the one sorted listing of them. |
| RulesText.FormatRules | kproxy/rules.go:206-218 | The builder's loop writes the header, the default and a line per name in order. |
| RulesText.ParseRules | kproxy/rules.go:158-193 | The scanner's loop computes the parse that the round trips are about, and what it accepts is canonical. |
| RulesErrors.ErrorIsFirstWrongLine | kproxy/rules.go:161-191 | A file is accepted if and only if no line is wrong by itself; otherwise the error is that of the first wrong line, with its number. |
| RootDomain.SuffixesCover | kproxy/rules.go:114-125 | The ICANN suffix and every private one passed on the way are names the host is or ends in; the loop terminates. |
| RootDomain.RootCovers | kproxy/rules.go:131-142 | A root domain is one label and the host's ICANN suffix, and the host is it or ends in it after a dot. |
| RootDomain.SuffixesClimb | kproxy/rules.go:110-125 | The suffixes are those met on climbing from the host, from each private suffix to what follows its first label: the private ones in that order, and the ICANN one if the climb ends at it. |
| RootDomain.RootMeans | kproxy/rules.go:127-142 | A name is the root domain if and only if it is one label and the ICANN suffix of that climb and the host is it or ends in it; an address and the empty name have none. |
| EngineInvariant.StepKeeps | kproxy/engine.go:69-215 | Every step of a check or a writer keeps the engine's invariant: channels, checks, pending list, canonical snapshots, writer, file and ledger. |
| EngineInvariant.RunKeeps | kproxy/engine.go:55-215 | The invariant holds in every state of every run. |
| EngineInvariant.PruneKeepsUndecided | kproxy/engine.go:207-211 | Pruning leaves exactly the listed hosts that the new rules leave to ask about, with their hits. |
| EngineTheorems.DecisionWasCurrent | kproxy/engine.go:69-105 | For a check that answers Allowed or Denied there is a moment between its call and its return whose current rules decide so: the longest name covering its host is allowed with the target given, or denied; or no name covers it and that is the policy. |
| EngineTheorems.LoadsAreBounded | kproxy/engine.go:72-104 | The snapshots one check loads strictly increase, and it loads at most one more than there are publishes during it. |
| EngineTheorems.HeldMeansWaited | kproxy/engine.go:92-103 | TimedOut implies held; a decided check was held if and only if it loaded a second snapshot. |
| EngineTheorems.ChannelsClosedOnce | kproxy/engine.go:201-215 | No channel is closed twice, and one is open if and only if it is the current one or its publisher stands between swap and close. |
| EngineTheorems.NeverStuck | kproxy/engine.go:69-215 | In every state of a run the change under way has a next step, and so has every check that has not returned, but for one about to mark while a change holds the mutex; a persist can fail wherever it can succeed, and a check can be called at any time. |
| EngineTheorems.NoLostWakeup | kproxy/engine.go:25-28 | With no publish under way, a waiting check that nothing wakes is on the current snapshot, whose rules are missing or leave its host to ask about. |
| EngineTheorems.PendingIsBounded | kproxy/engine.go:110-124 | At most 1000 hosts are listed, and a host's hits are at most the checks that marked it. |
| EngineTheorems.MarksOnce | kproxy/engine.go:87-90 | Along a run no check marks twice. |
| EngineTheorems.StaleHostWasMarkedLate | kproxy/engine.go:88-124 | If a listed host is decided by the current rules, then at an earlier step of the run a check holding an already superseded snapshot marked it, and no rules have been published since that step. |
| EngineTheorems.PublishLeavesOnlyUndecided | kproxy/engine.go:201-215 | When a publish lets go of the mutex, every listed host is undecided by the published rules. |
| EngineTheorems.OnlyLateMarksListDecided | kproxy/engine.go:112-124 | From a state whose listed hosts the current rules all leave to ask about, until other rules are pruned for and published, a host that the current rules decide is listed if and only if some step marked one with room for it in the list; each such step is a check's that held a superseded snapshot. |
| EngineTheorems.DecidedHostCanBeListed | kproxy/engine.go:88-124 | A run after which a listed host is decided by the current rules. |
| EngineTheorems.TimeoutCanBeatWakeup | kproxy/engine.go:98-104 | A run in which a check times out while its channel is closed and the current rules allow its host. |
| EngineTheorems.TimeoutHidesOnlyLateDecisions | kproxy/engine.go:98-104 | At every timeout of a run: on the current snapshot the rules hold the host back; if the current rules decide it, the snapshot is superseded; and a superseded one's channel is closed unless its publisher stands between swap and close. |
| EngineTheorems.RestartRecovers | kproxy/engine.go:201-215 | At every step the rules file parses to the current rules, or to the next ones only while their publisher is between persist and swap. |
| EngineTheorems.FailedPersistChangesNothing | kproxy/engine.go:201-206 | From the state before a change takes the mutex to the state after its persist fails, whatever checks do meanwhile, snapshots, channels, pending list and file are unchanged, and the ledger has the failure. |
| EngineTheorems.ChangesAreSequential | kproxy/engine.go:162-196 | Concurrent Replace, Decide and Remove come to their sequential fold in the order of the run's Acquire steps, outcome by outcome, and the file parses to the result. |
| EngineObject.Engine.MarkHost | kproxy/engine.go:112-124 | One more hit for the host, listed if there is room; the first sighting is kept and the bound holds. |
| EngineObject.Engine.Publish | kproxy/engine.go:201-215 | If the file is written: new rules, pruned list, new file; otherwise nothing changes. |
| EngineObject.Engine.DropDecided | kproxy/engine.go:207-211 | The loop over the list, in any order, leaves exactly the pruned list. |
| EngineObject.Engine.ReplaceRules | kproxy/engine.go:163-168 | The call does what one entry of the ledger says of a replace. |
| EngineObject.Engine.Decide | kproxy/engine.go:170-181 | The call does what one entry of the ledger says of a decision, refused before the first load. |
| EngineObject.Engine.RemoveName | kproxy/engine.go:183-196 | The call does what one entry of the ledger says of a removal, refused for a name without a rule. |
| EngineObject.Engine.ListPending | kproxy/engine.go:126-160 | Each host is in the group of its root domain and in no other; a group has its hosts' hits, earliest sighting and exactly their private suffixes, and all hits are conserved. |
| EngineObject.GroupByRoot | kproxy/engine.go:126-160 | The grouping loop partitions any list by any root function and conserves hits. |
| StatsSteps.ConnectionsAreConserved | kproxy/stats.go:45-79 | For each key at every moment, conns = allowed + denied + timed out + connections between conn and record, and timed out <= held <= conns. |
| StatsSteps.QuietTableAddsUp | kproxy/stats.go:45-79 | With no connection on its way, each key's conns are exactly its verdicts. |
| StatsSteps.EveryConnectionIsCounted | kproxy/stats.go:47-65 | Over the table, conns add up to the number of conn calls. |
| StatsSteps.CountersOnlyGrow | kproxy/stats.go:47-79 | No key leaves the table and no counter goes down, in any interleaving. |
| StatsSteps.NeverStuck | kproxy/stats.go:45-79 | In every state of a run each connection that is not through has a next step, with any verdict, and another can be opened. |
| StatsSteps.TableIsBounded | kproxy/stats.go:38-60 | The table never exceeds 10000 keys and one key for each scheme. |
| ProxyRoute.Stats.Conn | kproxy/stats.go:47-65 | Counts one connection under the key, or under other once the table is full, and changes no other key. |
| ProxyRoute.Stats.Record | kproxy/stats.go:67-79 | Adds the verdict and whether it was held to that key alone. |
| ProxyRoute.Proxy.Refuse | kproxy/proxy.go:186-190 | Denies, dials nothing and counts one denied connection under unknown. |
| ProxyRoute.Proxy.Route | kproxy/proxy.go:159-184 | Counts every connection once: of its key's verdicts exactly the one returned goes up by one. Denies a missing name or IP literal. A host without a root domain is allowed if and only if the longest name covering it is allowed with a target, which is dialled. Any other is allowed, denied or timed out as the engine answers, under its root domain, dialling the target if there is one and else the host and port. The whole table stays balanced. |
| Calendar.DateOfNumber | kelso/lib/cronexpr.py:61-72 | The closed form of a date's day number is the calendar counted out day by day (as datetime arithmetic takes it). |
| Calendar.NumberOfDate | kelso/lib/cronexpr.py:61-72 | And the other way round. |
| Calendar.WeekdayMeans | kelso/lib/cronexpr.py:78-79 | A date has weekday w, 0 for Sunday, if and only if it is a number of weeks and w days from Sunday 1970-01-04. |
| CronSearch.MonthJump | kelso/lib/cronexpr.py:64-65 | The month jump strictly advances, to a valid time, and passes over no scheduled minute. |
| CronSearch.DayJump | kelso/lib/cronexpr.py:66-67 | The day jump strictly advances and passes over no scheduled minute. |
| CronSearch.HourJump | kelso/lib/cronexpr.py:68-69 | The hour jump strictly advances and passes over no scheduled minute. |
| CronSearch.FitsMeans | kelso/lib/cronexpr.py:60-86 | A minute is found fitting if and only if the schedule has its month, its hour, its minute and its day; the day by day of month and by weekday, each where it is restricted, and by either one where both are. |
| CronSearch.Search | kelso/lib/cronexpr.py:63-73 | The loop returns a scheduled minute before the limit with none before it, or none when there is none up to the limit; it terminates. |
| CronSearch.NextAfter | kelso/lib/cronexpr.py:59-74 | The jumping search finds the first time that the schedule has after an instant with microseconds, and what the minute-by-minute search finds; it finds none if and only if there is none in the 1830 days that follow. |
| CronHorizon.MatchingDayIsEnough | kelso/lib/cronexpr.py:59-86 | From midnight of a matching day the search ends within that day. |
| CronHorizon.AcceptedExactly | kelso/lib/manifest.py:394-404 | Validation from 2000-01-01 accepts exactly the schedules that some day of every year matches and those that exactly the 29 Februaries match. |
| CronHorizon.YearlyNeverRaises | kelso/lib/cronexpr.py:59-74 | A schedule that some day of every year matches never raises, from any minute. |
| CronHorizon.LeapOnlyRaisesExactly | kelso/lib/cronexpr.py:59-74 | A schedule that only 29 February matches raises, from any minute, if and only if none of its times on any leap year's 29 February is among the minutes of the following 1830 days. |
| CronHorizon.HorizonIsEnough | kelso/lib/cronexpr.py:19-20 | What validation accepts never raises for an instant from 2000-01-01 through 2096-02-28. |
| CronHorizon.HorizonIsSharp | kelso/lib/cronexpr.py:19-20 | From any minute of 2096-02-29, or its end, such a schedule raises if and only if its last time on that day has gone by. |
| CronHorizon.LeapScheduleExists | kelso/lib/manifest.py:402 | There is such a schedule, and validation accepts it. |
| CronParse.ParseField | kelso/lib/cronexpr.py:89-107 | A field is read if and only if each of its items means something, and then as the union of what they mean; else the error is that of the first that means nothing, and true of it. |
| CronParse.ItemMeans | kelso/lib/cronexpr.py:92-106 | An item is read as a set of values if and only if that is what it means: a span, all or every n-th of it, with numbers in order within the field. |
| CronParse.ShapesMean | kelso/lib/cronexpr.py:3-6 | `*` means all of the field, `*/n` every n-th of it, `a` that number, `a-b` those between, `a-b/n` every n-th of those and `a/n` every n-th from a to the top. |
| Text.SplitMeans | kelso/lib/cronexpr.py:91 | The items of a field hold no comma and are the field when joined with commas. |
| Text.PythonFieldsMean | kelso/lib/cronexpr.py:37 | The fields of a schedule are its runs of characters that are no spaces. |
| CronParse.Parse | kelso/lib/cronexpr.py:35-57 | A parsed schedule has five fields, each with exactly its items' values, none empty or out of range; an error is the field count or that of the first wrong field's first wrong item. |
| CronParse.WeekdaysInRange | kelso/lib/cronexpr.py:47 | Both 0 and 7 mean Sunday, and the weekdays stay 0 to 6. |
| CronSteps.ListIs | kelso/lib/lifecycle/cron.py:48-81 | What a tick lists is the next run of every job found, each job once, soonest first and then by app and name. |
| CronSteps.NextRunIs | kelso/lib/lifecycle/cron.py:68-80 | A job's next run is at the first minute of its schedule after it last ran, or else after its app was loaded, or else after now, and has its schedule and whether its unit is up. |
| CronSteps.RunsBeforeMeans | kelso/lib/lifecycle/cron.py:81 | Sooner runs are listed first, then by app and then by name. |
| CronSteps.RunKeeps | kelso/lib/lifecycle/cron.py:84-131 | In every state of every run the log says what the recorded runs say, and the going tick's list follows from the log. |
| CronSteps.NeverStuck | kelso/lib/lifecycle/cron.py:84-110 | A tick that holds the lock always has a next step, takes its jobs in turn and ends after the last; time passes and ticks begin and die at any time. |
| CronSteps.TickLists | kelso/lib/lifecycle/cron.py:95-98 | A tick that begins takes the time, lists and has the list to do. |
| CronTick.MinuteBetweenRuns | kelso/lib/lifecycle/cron.py:66-78 | Between two recorded runs of one job lies a minute of its schedule: after the first, and no later than the second one's tick began. |
| CronTick.MissedStretchRunsOnce | kelso/lib/lifecycle/cron.py:3-5 | Having run, a job does not run again on a schedule with no minute since. |
| CronTick.NeverMoreThanScheduled | kelso/lib/lifecycle/cron.py:84-131 | On an unchanging schedule the runs of a job never outnumber its scheduled minutes. |
| CronTick.OncePerTickInOrder | kelso/lib/lifecycle/cron.py:97-106 | A tick runs no job twice, and runs them in the order of their times. |
| CronTick.DueExactly | kelso/lib/lifecycle/cron.py:99 | A job's next time has come if and only if a scheduled minute has passed since the whole second it last ran, or else since it was loaded, or else since the listing. |
| CronTick.WithoutLoadTimeNotDue | kelso/lib/lifecycle/cron.py:69-77 | A job that never ran and whose app has no load time is never due. |
| CronTick.DueIsRun | kelso/lib/lifecycle/cron.py:98-106 | What a tick lists, is due and can run has been recorded when the tick ends, unless its locks could not be got or the tick was broken off. |
| CronTick.OnlyDueRuns | kelso/lib/lifecycle/cron.py:98-101 | Whatever a run of ticks records was due and could run when its tick began, and is recorded no earlier. |
| CronTick.SkippedStaysDue | kelso/lib/lifecycle/cron.py:5-7 | A job whose next run has come stays so, for the same minute, over any steps that do not record it, whether or not its unit is up. |
| CronTick.Ticker.ListRuns | kelso/lib/lifecycle/cron.py:56-81 | The appending loop builds the list the tick protocol works through, or raises with the first schedule that does. |
| CronTick.Ticker.Tick | kelso/lib/lifecycle/cron.py:97-106 | The loop runs exactly the jobs of the list whose time has come and that can run, in order, and updates their records and no others. |
| CronTick.Ticker.Record | kelso/lib/lifecycle/cron.py:115-124 | The record is the time in whole seconds, and nothing is recorded when a lock cannot be got. |
| CronTick.Raises | kelso/lib/lifecycle/cron.py:77 | One schedule that raises leaves the tick nothing to run. |
| LogTable.LoadByKey | kelso/lib/logtab.py:134-154 | Replaying a log comes, key by key, to what the records that concern the key do to it. |
| LogTable.ReplayFromBackfill | kelso/lib/logtab.py:225-245 | Dropping from the final table the keys the tail names and replaying the tail gives the final table. |
| LogTable.CompactKeepsTable | kelso/lib/logtab.py:204-259 | For every log and history, what it stands for is the same after compaction. |
| LogTable.CompactShape | kelso/lib/logtab.py:204-259 | The last history records survive verbatim and in order; before them come only set records of live entries, one per key, so at most history records more than live keys. |
| LogTable.CompactInOrder | kelso/lib/logtab.py:231-245 | Before the kept tail, records are in the order of their times, and at one time of their keys. |
| LogTable.CompactIdempotent | kelso/lib/logtab.py:204-259 | Compacting twice with one history gives the same records as once. |
| LogObject.Materialize | kelso/lib/logtab.py:134-154 | The loop of load gives the table the log stands for. |
| LogObject.BackfillOf | kelso/lib/logtab.py:231-245 | Gathering the live entries in any order and sorting by time and key gives the one backfill. |
| LogObject.Rewritten | kelso/lib/logtab.py:204-259 | compact writes the compacted records; a log shorter than the history stays as it is. |
| LogObject.LogTab.Add | kelso/lib/logtab.py:57-83 | An append applies its record to what the log stands for, and compacts the log if and only if it has a limit and the file is then larger; an invalid key or value changes nothing. |
| LogObject.ValidKeyMeans | kelso/lib/logtab.py:37-44 | A key is valid if and only if it is 1 to 512 letters, digits and characters of "_/.-". |
| LogObject.LogTab.Write | kelso/lib/logtab.py:160-163 | Sets one key and no other. |
| LogObject.LogTab.Read | kelso/lib/logtab.py:165-167 | Gives the key's entry of the table the log stands for. |
| LogObject.LogTab.Clear | kelso/lib/logtab.py:169-172 | Removes exactly the keys with the prefix. |
| LogObject.LogTab.Delete | kelso/lib/logtab.py:174-179 | Removes one key; a strict log refuses when it is not there. |
| LogObject.LogTab.Scan | kelso/lib/logtab.py:261-271 | Gives exactly the entries with the prefix and suffix, and refuses an invalid one. |
| LogObject.LogTab.History | kelso/lib/logtab.py:188-202 | Gives every matching set record, oldest first, and refuses an invalid prefix or suffix. |
| LogObject.LogTab.Compact | kelso/lib/logtab.py:204-259 | Rewrites the log to its compacted form and keeps what it stands for. |
| LogText.AppendReadsBack | kelso/lib/logtab.py:57-83 | Appended to a file whose last line is ended, a record is read back after what was there, if and only if its value holds no carriage return. |
| LogText.CutAtReturn | kelso/lib/logtab.py:114-132 | With a carriage return in its value, the record read back has its value cut there. |
| LogText.PlainLineReads | kelso/lib/logtab.py:114-132 | Without one, the record's line is read as that record and no other. |
| LogText.FileHoldsAppends | kelso/lib/logtab.py:57-132 | A file holds exactly the records appended to it, in order, when none of their values has a carriage return. |
| LogText.CompactReadsBack | kelso/lib/logtab.py:204-259 | The text that compact leaves, between its comments, is read back as exactly the compacted records of what the file held. |
| ChangesSinceStart.ChangesSince | kelso/lib/observations.py:210-225 | The loop over the history computes the flags that the log's records lead to. |
| ChangesSinceStart.FlagMeans | kelso/lib/observations.py:210-225 | A flag is up if and only if a record that raises it has no load or start after it. |
| ChangesSinceStart.KeysMean | kelso/lib/observations.py:179-184 | A route key begins with config/subdomain or routes/, a config key with config/ or binds/; two keys record a load and a start. |
| ChangesSinceStart.FlagAfterCompaction | kelso/lib/logtab.py:225-245 | In any log of sets a flag is up after compaction if and only if a surviving record raises it and no surviving load or start ends up after it. |
| ChangesSinceStart.CompactKeepsFlagExactly | kelso/lib/logtab.py:225-245 | Where no change shares a timestamp with a load or start, compaction keeps a flag if and only if one of the records that have it outstanding survives. |
| ChangesSinceStart.CompactKeepsChanges | kelso/lib/observations.py:210-225 | So it keeps both flags in a log of sets without rekeys. |
| ChangesSinceStart.BackfillFlag | kelso/lib/logtab.py:225-245 | Of a log compacted to its live entries, whatever it held before, a flag is up if and only if an entry that raises it sorts after every load and start. |
| ChangesSinceStart.StrictlyTimedIsSeparated | kelso/lib/logtab.py:225-245 | Strictly increasing timestamps are enough for that. |
| ChangesSinceStart.SameSecondLosesChange | kelso/lib/logtab.py:225-245 | A log in which compaction drops a change made in the same second as the start before it. |
| ChangesSinceStart.RekeyThenCompactLosesChange | kelso/lib/observations.py:187-193 | A log with strictly increasing timestamps in which compaction drops a pending secret that was rekeyed. |
| Rekeying.RekeyPrefix | kelso/lib/store.py:174-193 | Every secret the old key reads is appended once, with the same plaintext under the new key, and fits; the unreadable ones are listed and untouched and everything else is unchanged. It stops part-way only for a secret that has become too long. |
| Rekeying.AnyPrefixIsReadable | kelso/lib/rekey.py:51-52 | In any log, after any number of a rekey's appends, each value is as it was or has its secret moved, with or without compactions; without one, cutting the log back restores it. |
| Rekeying.AnyStopIsReadable | kelso/lib/rekey.py:48-78 | The same for every store at once, apps' and kelsodb, after any number of the appends of a whole rekey. |
| Rekeying.SharesInTurn | kelso/lib/rekey.py:64-74 | Of those appends no store gets one before the stores ahead of it have all of theirs. |
| Rekeying.SharesAddUp | kelso/lib/rekey.py:64-74 | What the stores get of the first n appends of a rekey is n in all, or all there are. |
| Rekeying.RekeyKeepsChanges | kelso/lib/observations.py:187-193 | A rekey of an app store that brings on no compaction moves no pending flag. |
| Rekeying.FlagAfterRekey | kelso/lib/observations.py:210-225 | What any rekey leaves of a flag: what it was if no append compacted the log, else whether an outstanding entry is of a key not rekeyed by the last compaction. |
| Rekeying.RekeyKeepsFlagExactly | kelso/lib/observations.py:187-225 | In a log of sets with changes separated in time from loads and starts, a rekey keeps a flag if and only if it was down, or nothing compacted, or an outstanding change is of a key not rekeyed by the last compaction. |
| Rekeying.RekeyAppStore | kelso/lib/store.py:264-281 | The same for an app's config. In a store whose values fit, with Fernet's lengths, it goes through if and only if no secret that the old key reads has 1440 to 1455 bytes. Without a compaction its pending flags are unchanged. |
| Rekeying.LongSecretStopsRekey | kelso/lib/store.py:264-281 | A log with one record, a secret of 1440 bytes as set_config writes it: it fits and the key reads it, and no records that fit can carry a rekey to any key through. |
| Rekeying.ConfigSurvivesRekey | kelso/lib/store.py:255-262 | What get_config gave with the old key it gives with the new one, for every plain value and every secret the old key could read. |
| Rekeying.GetUndoesSet | kelso/lib/store.py:242-262 | get_config gives back what set_config stored, secret or not. |
| Rekeying.SettingRaisesFlag | kelso/lib/observations.py:187-225 | Setting a config value, secret or not, raises the flag of the routes for the subdomain and else of the config; sealing a secret again raises none. |
| Rekeying.ConfigJsonLength | kelso/lib/store.py:48-51 | The length of a config value as JSON, with and without the rekey's mark. |
| Rekeying.KelsoJsonLengths | kelso/lib/store.py:145-167 | The lengths of a secret and a token as JSON. |
| Rekeying.KelsoSurvivesRekey | kelso/lib/store.py:153-172 | What get_secret and get_token gave with the old key they give with the new one, with the same expiry. |
| Rekeying.RekeyKelsoStore | kelso/lib/store.py:174-193 | The secrets and then the tokens of kelsodb; expiries and everything else are unchanged. All records of both passes move a secret, they are as many as the old key reads, exactly the others are listed. It stops only for one that has become too long, which with Fernet's lengths, in a store whose values fit, there never is: it is then always through. |
| Rekeying.RekeyApps | kelso/lib/rekey.py:64-69 | The loop rekeys every app's store, counts what it wrote and reports exactly what the old key could not read in each; it stops only for a secret that has become too long, with every store's records accounted for. |
| Rekeying.RekeyAll | kelso/lib/rekey.py:48-78 | Every app's store and then kelsodb, with the numbers of stores and values and exactly the unreadable names of each and every store's records accounted for. It stops only for a secret that has become too long; with Fernet's lengths, in stores whose values fit, it goes through if and only if no app has a secret of 1440 to 1455 bytes that the old key reads. |
| Ports.NextFreePort | kelso/lib/store.py:111-120 | Returns the least port from the base that is on no route; fails if and only if all 1001 ports of the range are taken. |
| Ports.ClearAndReallocate | kelso/lib/lifecycle/load.py:98-130 | An app on the host's network or without routes is left alone and one without a subdomain refused; else its routes are cleared and given ports in turn, up to where there are none, as the allocation function says. |
| Ports.AllocateKeepsDistinct | kelso/lib/lifecycle/load.py:98-130 | Without pinned ports no port is given twice. |
| Ports.PortsStayDistinct | kelso/lib/lifecycle/load.py:98-130 | Over any sequence of loads, reloads and purges of apps without pinned ports, also interrupted ones, all recorded host ports are distinct. |
| Ports.OtherAppsUntouched | kelso/lib/store.py:105-109 | Loading or purging one app changes no other app's routes. |
| Ports.PrefixIsApp | kelso/lib/store.py:102-109 | The key prefix of an app's routes is on exactly that app's routes. |
| Ports.LoadDistinctExactly | kelso/lib/lifecycle/load.py:98-130 | With any routes, a load keeps all host ports distinct if and only if it allocates nothing or each pinned port is on no other app's route and given to no earlier route. |
| Ports.PinnedPortsCanClash | kelso/lib/lifecycle/load.py:98-130 | A pinned port can be one another app already has. |
| Retention.PicksIgnoreDropped | kelso/lib/backup.py:486-499 | Dropping backups a selection does not pick changes nothing of what it picks. |
| Retention.PathIndependent | kelso/lib/backup.py:475-505 | For all sets of one owner's backups with distinct runs, keep(keep(S) + T) = keep(S + T). |
| Retention.KeptIdempotent | kelso/lib/backup.py:475-505 | Keeping again drops nothing more. |
| Retention.WhenToForgetDoesNotMatter | kelso/lib/backup.py:508-542 | Forgetting after every run, after any of them or once at the end leaves the same backups. |
| Retention.NewerMeans | kelso/lib/backup.py:482 | A run is newer if it comes later in dictionary order. |
| Retention.PolicyWants | kelso/lib/backup.py:475-505 | What the selections of a policy keep, backup by backup: a scheduled one if it is the newest of its day and fewer than `daily` days have newer ones, or so by week or month; a manual one if fewer than `manual` are newer; one from before an update or restore if it is the newest; no other. |
| Retention.SelectRuns | kelso/lib/backup.py:491-499 | The greedy pass, newest first, keeps the runs of the newest backup in each of the first count buckets: those with fewer than count newer buckets and none newer in their own. |
| Retention.FirstOnes | kelso/lib/backup.py:501-503 | Keeping by count is a selection in which every backup is its own bucket. |
| Retention.Expired | kelso/lib/backup.py:475-505 | expired returns, in order, exactly the backups that are not wanted in that sense. |
| JobQueue.TrimMeans | kelso/jobs/runner.py:220-228 | Trimming takes only finished jobs, oldest first, until at most 200 are left or none of them is finished. |
| JobQueue.RunKeeps | kelso/jobs/runner.py:104-228 | In every state of every interleaving the history, the queue and the worker agree on where each job is. |
| JobQueue.NoJobIsLost | kelso/jobs/runner.py:104-117 | An unfinished job is in the history and about to be queued, or queued exactly once, or with the worker, or one whose context could not be built; only a finished one leaves the history. |
| JobQueue.OneRunsAtATime | kelso/jobs/runner.py:3-6 | A job is running if and only if it is the one the worker executes. |
| JobQueue.LookUpFinds | kelso/jobs/runner.py:203-207 | The job the worker takes off the queue is always in the history still. |
| JobQueue.RunsOnceInOrder | kelso/jobs/runner.py:145-147 | No job is executed twice, and jobs are executed in queue order. |
| JobQueue.NeverStuck | kelso/jobs/runner.py:104-218 | A job handed in can be queued, an idle worker can take the next one and a busy one can go on, however the context and the job turn out. |
| JobQueue.QueueOnlyGrows | kelso/jobs/runner.py:104-147 | What was taken and what is queued grow only at the queue's end. |
| JobQueue.StrandedForGood | kelso/jobs/runner.py:196-213 | A job whose context could not be built, by a swallowed exception, stays queued in every later state, so its verb looks busy ever after. |
| JobQueue.BusyMeans | kelso/jobs/runner.py:196-201 | A verb is busy if and only if a job of its is not finished. |
| JobQueue.StrandingRun | kelso/jobs/runner.py:203-213 | A run that strands a job. |
| JobRunnerObject.JobRunner.TrimHistory | kelso/jobs/runner.py:220-228 | The in-place loop leaves the trimmed history. |
| JobRunnerObject.JobRunner.Submit | kelso/jobs/runner.py:104-117 | The job is in the history and last on the queue, and no unfinished job is dropped or changed. |
| JobRunnerObject.JobRunner.RunJob | kelso/jobs/runner.py:203-218 | A context that raises an expected exception leaves the job as it was; else it is done if nothing was raised and failed if something was, and no other job changes. |
| JobRunnerObject.JobRunner.Execute | kelso/jobs/job.py:101-140 | The job is done or failed afterwards, and what its work raised is raised again. |
| JobRunnerObject.RunJobIsSteps | kelso/jobs/runner.py:203-218 | The worker's steps for a taken job are enabled one after another and leave the history as RunJob does. |
| JobRunnerObject.JobRunner.RunPending | kelso/jobs/runner.py:128-143 | Runs every queued job once, counts them, leaves the queue empty and every other job as it was. |

## Left out

- Docker, restic, git, systemd, HTTP, TLS and DNS parsing, websockets, SQLite, route providers, the CLI, the UI and its templates: foreign calls and presentation.
- Cryptography, BIP39 and HKDF, beyond decrypt-after-encrypt.
- The Public Suffix List, net.ParseIP and strftime, beyond the facts named above.
- Time zones and daylight saving in `_next` and `backup_due`, and `backup_due` itself: cron runs on one clock that never goes back.
- `datetime`'s upper end: years are unbounded here, where Python raises past 9999.
- `bufio.Scanner`'s limit on the length of a line of the rules file.
- Lower-casing outside ASCII, except the two letters Go folds into it, and digits outside ASCII in a cron field (`str.isdigit`).
- `load(at)` of an earlier time across a compaction, which compaction does not preserve.
- What a strict log raises on a malformed line: `LogText` models a log that skips it.
- The filesystem steps of `writeRulesFile` and `compact`: writing the new file and renaming it over the old one is one step, which happens or fails as a whole.
- Writers racing a compaction, which kelso/lib/logtab.py:207 excludes.
- kproxy's byte counts, sighting times and `Snapshot`'s reading of one counter after another; and the pointer to a key's counters, for which the key stands (no key is ever replaced: `StatsSteps.CountersOnlyGrow`).
- The slots that bound open connections, and `pipe`'s copying.
- `backups`' grouping of snapshots and `forget_expired`'s grouping by owner: `Retention` is about one owner's backups, with distinct runs, as `refuse_same_second` keeps them.
- Ports.ClearAndReallocate: for routes whose record fits a value; a longer one (of very many providers) is a ValueError that leaves the routes before it.
- The order in which load, start, stop, rm and restore call the rest.
- Ports.PortsStayDistinct: for apps without pinned ports, as it is false with them; `Ports.LoadDistinctExactly` is for any.
- The mirror app, the UI's rate limit, `PortSpec.parse` and `parse_route_providers`: small or conditional on foreign behaviour.
- CronTick.NeverMoreThanScheduled: for a job whose schedule stays the same, as runs on different schedules have no one set of minutes to be counted against; `CronTick.MinuteBetweenRuns` is for any.
- Rekeying.AnyPrefixIsReadable: says that cutting the log back restores it only where no append brought on a compaction, which rewrites what it would go back to.
- Rekeying.FlagAfterRekey: for a log that keeps no history when it compacts, as the stores are set up (kelso/lib/store.py:48); `ChangesSinceStart.FlagAfterCompaction` is for any history.
- Rekeying.RekeyAppStore: its condition on lengths is for Fernet's tokens and JSON without escapes, which tokens need none of.
- Rekeying.RekeyKelsoStore: likewise for when it is always through.
- Rekeying.RekeyAll: likewise for when it goes through.
- A rekey's backup password and seed file, which it moves before the stores.
- Exceptions that are no `Exception`, such as an interrupt, in the job runner and a tick.
- StatsSteps.TableIsBounded: counts the schemes in use, of which kproxy has two.
