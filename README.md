# github-monitor: event summaries and output policy

A model of the summarising core of `github-monitor`, a command-line tool
that prints one short line per GitHub event (or per repository of a
search result). The model covers:

- `GetType`, which names an untyped record `Project`;
- `summarize`, a two-level switch on the event kind and then on
  `Payload.Action` or `Payload.Ref_Type`. Each branch fills one line
  template, or drops an event of a skipped kind (`GistEvent`,
  `MemberEvent`). The skip set is consulted only in the `default` branch;
- `format`, which fills the template with `fmt.Sprintf` and then works in
  three steps:
  - it collapses the first occurrence of "first token of the line,
    then `/`", so that `alice push to alice/repo` reads
    `alice push to repo`;
  - it cuts the line to the `-c` limit;
  - it writes the line, or squashes it as a duplicate through the
    `nodupes` set unless `-d` is given;
- the loop of `main`, which counts the events that wrote nothing and stops
  once `i+1-skipped` equals the `-m` count.

Modules, in dependency order:

- `Decimal`: `strconv.Itoa` (and `%d`) as decimal text. Its reference
  reading `Value` proves that no information is lost.
- `Text`: `strings.Index` and `strings.Replace(s, pat, repl, 1)`.
- `Events`: the decoded record (only the fields the summariser reads),
  `GetType`, the switch (`Classify`), the templates (`Render`) and the line
  of an event (`Summary`). The switch is also written as an independent
  table of rows (`Rules`); lemmas prove that the two agree and that no
  event matches two rows.
- `Shaping`: the collapse, the cut and the admission of a line against the
  lines already seen. `Collapse` is proved to cut out the first
  occurrence, and to leave a line alone when there is none. The lemmas
  also show:
  - what it does when the actor owns the repository, for every template
    that starts with the actor and ends with the repository (all but
    project, follow and fall-back). A fall-back line starts with `->`,
    so its repository never loses its owner;
  - what it does when someone else owns it;
  - the literal behaviour when the owner's name merely ends with the
    actor's, or when a tag or branch is named `<actor>/<x>`.
- `Runs`: reference definitions over the whole event list, with the loop's
  results proved about them. `Lines` holds every line in order. `Dedup`
  keeps first occurrences only. `Emitted` is the output built one event at
  a time. `StopsAt` is the point where the loop stops.
- `Monitor`: class `Monitor` holds the output written so far (`written`),
  `nodupes` (`seen`) and the globals `limit` and `showDupes`. `Format`
  follows `format` from main.go:245 on, with the collapse as the function
  `Collapse`: it starts from a line already rendered by `Render`, which
  stands for the `fmt.Sprintf` of main.go:244. `Run` follows the loop of
  `main` statement by statement.
  `Summarize` keeps the `default` branch's loop over `skipEvents`, but
  takes the choice of template from the pure `Classify` and the text from
  `Render` instead of repeating the nested switches. The methods are
  proved against the definitions in `Runs`.
- `Scenarios`: three worked cases.

The model follows `main.go`. It differs from the usual summary of this
tool's output in:

- Lines the code does not have:
  - no `reopened` line for issues or pull requests;
  - no pull-request numbers;
  - no `CommitCommentEvent` or `GollumEvent` case;
  - no open-issues count for projects;
  - no multi-line project block or `-s` mode.
- Different wording:
  - `IssueCommentEvent` prints no issue number;
  - `PullRequestReviewCommentEvent` prints `comment req`;
  - pull requests print `close pull` and `create pull`.
- `-m 0` does not mean "unlimited". The loop compares the number of
  written lines with 0 after every event. So a run whose first event writes
  nothing (a skipped kind) stops after that event. A run whose first event
  writes a line goes through every event.

## Model

| member | source | states |
|---|---|---|
| Decimal.NatDigits | main.go:172 | the digits of a natural number: at least one, all decimal digits, no leading zero, a single digit exactly below 10 |
| Decimal.Itoa | main.go:180 | an integer as decimal text: digits with a leading `-` exactly for negatives, no leading zero, no space and no slash |
| Decimal.NatDigitsValue | main.go:172 | reading the digits of `n` back as a number gives `n` |
| Decimal.ItoaRoundTrip | main.go:172 | reading the text of `Itoa(n)` back gives `n` |
| Decimal.ItoaInjective | main.go:180 | distinct integers render as distinct text |
| Text.Index | main.go:245 | `strings.Index`: -1 exactly when the pattern occurs nowhere, otherwise a position where it occurs with no earlier occurrence |
| Text.IndexFirst | main.go:247 | a first occurrence is exactly the position `Index` returns |
| Text.ReplaceOnce | main.go:248 | `strings.Replace` with n=1: the first occurrence is replaced and the rest is kept; without an occurrence the text is unchanged |
| Events.GetType | main.go:161-166 | `Project` when the type is empty, the type itself otherwise; never empty |
| Events.Classify | main.go:170-237 | the `default` branch is taken exactly when the kind is none of the twelve case labels; a fall-back line inside a case happens only for the five kinds with a nested switch |
| Events.Summary | main.go:168-240 | no line exactly for the kinds in `skipEvents`, and such a kind always reaches the `default` branch, so the skip set is consulted there only |
| Events.ClassifyByRule | main.go:170-229 | an event matching a row of the template table takes that row's branch |
| Events.ClassifyWithoutRule | main.go:185-236 | an event matching no row falls back to the generic line when its kind is a case label, and reaches `default` otherwise |
| Events.RulesExclusive | main.go:170-229 | no event matches two rows, so each event has exactly one template |
| Events.Render | main.go:172-236 | the definition of the line templates: each `fmt.Sprintf` of the switch written out, the fall-back with the raw `Type`; its layout is stated by `RenderFrame` and its choice by `SummaryByRule` |
| Events.RenderFrame | main.go:172-236 | every line but the project's and the fall-back starts with the actor and a space; every line but the project's and the follow ends with a space and the repository; the project line starts with the full name and a space and ends with a space and the watcher count; the fall-back starts with `-> <Type> <actor> ` |
| Events.SummaryByRule | main.go:170-229 | an event matching a row is summarised with that row's template, e.g. `<actor> star <repo>` or `<actor> tag <ref> <repo>` |
| Events.FallbackLine | main.go:230-236 | an event matching no row and not of a skipped kind is summarised as `-> <Type> <actor> <repo>` |
| Shaping.SpaceIndex | main.go:245 | `Index` of a space is -1 exactly when there is none, otherwise it is the first space |
| Shaping.Collapse | main.go:245-249 | a line without a space is left unchanged |
| Shaping.CollapseRemovesFirst | main.go:245-249 | with the first space at `i` and the first occurrence of the leading token plus `/` at `p`, exactly that occurrence is cut out |
| Shaping.CollapseAtSpace | main.go:245-248 | with a first space, the collapse replaces the text before it plus `/` |
| Shaping.ReplaceAt | main.go:248 | replacing the occurrence `Index` finds by nothing cuts it out |
| Shaping.CollapseKeeps | main.go:245-249 | with no occurrence of the leading token plus `/`, the line is unchanged |
| Shaping.FirstAfterHead | main.go:247-248 | a pattern ending in its only slash first occurs right after a slash-free head |
| Shaping.OwnRepoLine | main.go:245-248 | in a line led by the actor naming `actor/name`, the first space ends the actor and `actor/` first occurs at the repository |
| Shaping.CollapseOwnRepo | main.go:245-249 | a line led by the actor and a space, with no slash before the repository `actor/name`, collapses to the same line naming just `name` |
| Shaping.CollapseOwnerSuffix | main.go:245-249 | as written: an owner whose name ends with the actor's also loses that ending (`alice push to xalice/repo` becomes `alice push to xrepo`) |
| Shaping.CollapseOtherOwner | main.go:245-249 | a repository owned by someone else keeps its full name, unless the text before its slash ends with the actor |
| Shaping.Truncate | main.go:251-253 | with a positive limit below the length, exactly the first `limit` characters are kept; otherwise the line is unchanged; always a prefix, and never longer than a positive limit |
| Shaping.Shape | main.go:244-253 | the line `format` has before the duplicate check: a prefix of the collapsed line, exactly `limit` characters long when a positive limit is below its length, and the collapsed line itself otherwise |
| Shaping.LineOf | main.go:168-253 | an event has a shaped line exactly when its kind is not skipped, and that line respects a positive limit |
| Shaping.RepoLast | main.go:174-226 | every template that starts with the actor and ends with the repository (all but project, follow and fall-back) is a slash-free text led by the actor and a space, followed by the repository; only the templates that print `Payload.Ref` (tag, delete branch) or `Release.Tag_Name` (release) need that field free of slashes |
| Shaping.LineOwnRepo | main.go:174-226 | for those templates, when the actor owns the repository `actor/name`, the collapsed line is the line for `name`, whatever `Payload.Ref` a push carries (e.g. `refs/heads/main`) |
| Shaping.FallbackKeepsOwner | main.go:186-236 | a fall-back line `-> <Type> <actor> <owner>/<name>` is left unchanged by the collapse, which looks for `->/`, whenever the owner has no `>`, even when the owner is the actor |
| Shaping.RefOfActor | main.go:197-219 | as written: a tag or branch named `<actor>/<x>` loses its `<actor>/`, and the line is the one for a ref named `<x>` |
| Shaping.Fresh | main.go:255-266 | the write-or-squash decision for one outcome: nothing for a skipped event; otherwise its line is added exactly when duplicates are shown or it is not in `nodupes`, and nothing is added exactly when it is a duplicate to squash |
| Runs.ElemsConcat | main.go:261-263 | the lines of a concatenation are the lines of its parts |
| Runs.Emitted | main.go:77-86 | the definition of the output after the first `n` events: each event's line passed through the write-or-squash decision against the lines written before it; its content is stated by `SquashedIsDedup` and `ShownIsLines` |
| Runs.StopsAt | main.go:77-86 | the definition of where the loop stops: after the first event at which exactly `count` lines have been written, or at the end of the list; its consequences are stated by `StopsAtUnique`, `AtMostCount` and `RunWrites` |
| Runs.EmittedStep | main.go:255-268 | one more event extends the output by at most one line, and the seen set by exactly the lines it adds |
| Runs.UnreachedStep | main.go:83 | the count stays unreached while the new number of lines differs from it |
| Runs.TracksStep | main.go:78-85 | one turn of the loop: `i+1-skipped` is the number of written lines; the loop stops exactly where the count is first reached |
| Runs.OutcomesExist | main.go:78 | every event list has its sequence of outcomes |
| Runs.DedupElems | main.go:260-266 | squashing keeps exactly the lines not seen before |
| Runs.DedupFresh | main.go:260-266 | squashing writes no line twice and none already seen |
| Runs.DedupSnoc | main.go:260-266 | squashing one more line keeps it exactly when it is new |
| Runs.SquashedIsDedup | main.go:260-268 | without `-d` the output is the first occurrence of each line of the events, in order; it holds no duplicate and leaves out no line |
| Runs.ShownIsLines | main.go:255-258 | with `-d` every line of the events is written, in order |
| Runs.EmittedGrowth | main.go:78-85 | each event writes at most one line |
| Runs.BelowCount | main.go:83-85 | before a positive count is reached, fewer lines than the count were written |
| Runs.AtMostCount | main.go:77-86 | with a positive count, at most that many lines are written |
| Runs.ReachesCount | main.go:77-86 | with a positive count and enough new lines among the events, exactly that many are written |
| Runs.StopsAtUnique | main.go:83-85 | the stopping point is determined by the events and the count |
| Runs.NegativeCount | main.go:83 | a negative count is never reached: every event is summarised |
| Runs.FirstLineStays | main.go:78-85 | after a first event that wrote its line, at least one line stays written |
| Runs.ZeroCountFirstSilent | main.go:83-85 | with count 0, a first event that writes nothing ends the loop after one event, with nothing written |
| Runs.ZeroCountFirstWritten | main.go:83-85 | with count 0, a first event that writes its line makes the loop go through every event |
| Runs.RunWrites | main.go:77-86 | everything a run writes: the lines in order, squashed without `-d` and free of duplicates; at most `count` lines with a positive count, exactly `count` when there are enough; every event with a negative count; the two cases of count 0 |
| Monitor.Monitor.constructor | main.go:48-49 | empty output and empty `nodupes`, with the given `limit` and `showDupes` |
| Monitor.Monitor.Format | main.go:242-269 | the collapsed and cut line is appended and false returned, either with `-d` (`nodupes` untouched) or when the line is new (then also recorded in `nodupes`); otherwise nothing changes and true is returned; no line is ever written twice without `-d` |
| Monitor.Monitor.Summarize | main.go:168-240 | a skipped kind returns true and changes nothing; any other event goes through `Format` with its template |
| Monitor.Monitor.SummarizeNth | main.go:78-79 | `summarize` on the event at position `i` of the list |
| Monitor.Monitor.Run | main.go:77-86 | the loop consumes events up to the stopping point and writes exactly what `Emitted` prescribes; it has the consequences of `RunWrites` |
| Scenarios.BranchPush | main.go:190-191 | a push by the actor to their own repository `actor/name`, whose `Payload.Ref` is `refs/heads/<branch>`, is written `<actor> push to <name>` |
| Scenarios.OtherOwnerLine | main.go:245-249 | `alice push to bob/repo` is left unchanged |
| Scenarios.GistFirstStops | main.go:77-86 | with `-m 0`, a gist followed by a push ends the loop after the gist, with nothing written |

## Left out

- `receive` (main.go:89-126) is not modelled: the HTTP request, the network read, and JSON decoding with its array-then-`items` fallback. Records enter the model as already decoded `Event` values, holding only the fields read at main.go:161-237.
- The debug output that `json.Indent` writes to `debugOut` (main.go:102-107) is diagnostic output only and is not modelled.
- Flag parsing, clock-dependent search dates and URL construction (main.go:38-67) are not modelled: they depend on the environment and on libraries. The check that `-u` and `-l` are exclusive returns before any output.
- The `io.Writer` is modelled as the sequence `written` of the lines it receives; the `"\n"` after each line and write errors are not modelled.
- `fmt.Sprintf` is written out as concatenation for each template; `%d` is `Itoa`.
- `nodupes` is a `map[string]int` whose values are always 0; it is modelled as the set of its keys.
- Shaping.Truncate: counts characters, not bytes: Go strings are byte sequences and `f[:limit]` can cut through a multi-byte character, while the model treats a string as a sequence of characters.
- Decimal.Itoa: Go's `int` is 64 bits wide on 64-bit platforms (32 bits on others); the model renders unbounded integers, which agree with Go's whenever the value fits in the platform's `int`.
- Shaping.LineOwnRepo: for tag and delete-branch lines it requires a ref without a slash. The result also holds for a ref such as `feature/x` that does not contain `<actor>/`, but that wider case is not proved; `RefOfActor` covers a ref that starts with `<actor>/`.
- Monitor.Monitor.Run: requires empty `written` and `seen`, matching the fresh `nodupes` made at main.go:48 before the single run of the loop.
- Monitor.Monitor.Run: returns a ghost list of per-event outcomes, which its contract refers to; the loop body calls `summarize` through `SummarizeNth`, so the per-event outcome stays a name in the loop's proof.
