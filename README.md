# envscan scan core, modelled in Dafny

envscan's `scan` command walks the commit history of a Git repository and
checks every line of every file of every commit against the regular
expressions of a rule list. A file is skipped when its path equals an entry
of the `ignore.files` list, or when an entry of `ignore.directories` is a
plain character prefix of its path. One text entry,
`Match found in commit <hash>, file <path>: <line>`, is appended for every
(line, rule) pair whose pattern matches. The first error while listing a
commit's files, reading a file or splitting it into lines ends the whole
walk, and the scan then exits with status 1 without reporting anything.
Otherwise any entry makes the scan print the entries, write a report, notify
the Discord webhook when one is configured, and exit with status 1. With no
entry it prints "No secrets found" and exits normally.

The model, one module per concern of `packages/cmd/scan.go`:

- `Configuration` (configuration.dfy): the `Rule`, `Ignore` and `Config`
  records. `Matcher` is the regular-expression engine, taken as a parameter.
- `IgnoreFilter` (ignore_filter.dfy): `IsIgnored`, the ignore decision as a
  predicate, and `ShouldIgnore`, the two early-return loops proved equal to it.
- `MatchFormat` (match_format.dfy): `FormatMatch`, the entry text, and
  `ParseMatch`, a decoder proved to invert it in both directions whenever
  the file name contains no `": "`. A name that contains one makes the
  entry ambiguous.
- `History` (history.dfy): commits, trees, files and contents as input data.
  `HistoryScan` is the pure specification of the walk: the entries in commit,
  file and line order, or the first error.
- `HistoryProperties` (history_properties.dfy): ordering, first error wins,
  only-appending, irrelevance of ignored files' content, and exactly which
  entries are reported.
- `Scan` (scan.dfy): the walk as nested loops over an accumulator, with one
  method per callback and per loop, each proved against the specification;
  and the final outcome (`Conclude`, `ScanOutcome`, `ExitStatus`).
- `Wrappers` (wrappers.dfy): `Option` and `Result`.

Inputs that the program gets from libraries or the outside world are
parameters of the model:
- regular-expression matching is `m: Matcher`;
- the webhook POST is `notify: Notifier`, which returns its error if any;
- the repository is a `Repository`: it failed to open, its log failed, or
  it holds a `seq<Commit>` in go-git's log order;
- each commit's tree lists its files or fails;
- each file's content is unreadable, or it is the lines the line scanner
  gives together with the scanner's final error.

A commit hash is its 40-digit lower-case hexadecimal text, which is what
`%s` prints for a go-git hash.

A Dafny `char` stands for one byte of a Go string. `strings.HasPrefix` and
`fmt.Sprintf` work byte by byte, so file names and lines need not be valid
UTF-8, and under this reading the model loses nothing.

What the scan does not do:
- It does not walk a working directory and runs nothing concurrently. The
  walk is sequential over the commit history.
- It reads no gitignore file. The only ignore criteria are the two explicit
  lists, and directory entries are plain string prefixes, not path segments.
- It recompiles a rule's pattern for every (line, rule) pair. This changes
  nothing that the model observes.
- Keywords are not a pre-filter and the secret group is never used.
- An entry is a formatted string. It has no rule id, no line number and no
  structured record.
- A file error is not recoverable: it aborts the whole scan, and the
  matches collected so far are dropped.
- Each commit's full tree is scanned. A file that did not change is
  therefore reported again for every commit that contains it.

## Model

| member | source | states |
|---|---|---|
| IgnoreFilter.ShouldIgnore | packages/cmd/scan.go:73-85 | the result is true exactly when the path equals an ignored file name or some ignored directory entry is a character prefix of it; no other criterion |
| IgnoreFilter.ExactNameIgnored | packages/cmd/scan.go:74-78 | a path equal to an entry of the file list is ignored |
| IgnoreFilter.DirectoryPrefixIgnored | packages/cmd/scan.go:79-83 | a path that has an entry of the directory list as prefix is ignored |
| IgnoreFilter.EmptyDirectoryIgnoresAll | packages/cmd/scan.go:79-83 | an empty directory entry ignores every path |
| IgnoreFilter.MatchingIsNotPathAware | packages/cmd/scan.go:73-85 | "src" ignores "srcfoo.go" and "src/main.go" but not "lib/src.go"; "a.txt" does not ignore "dir/a.txt" |
| MatchFormat.FormatMatchEmbeds | packages/cmd/scan.go:124 | the entry holds the hash, the file name and the full line verbatim at fixed offsets |
| MatchFormat.ParseFormatted | packages/cmd/scan.go:124 | decoding an entry gives back its hash, file name and line whenever the name contains no ": " |
| MatchFormat.ParsedReformats | packages/cmd/scan.go:124 | every decodable entry is exactly the formatting of what it decodes to |
| MatchFormat.NameWithSeparatorIsAmbiguous | packages/cmd/scan.go:124 | with ": " in a file name, two different (name, line) pairs give the same entry |
| History.LineMatches | packages/cmd/scan.go:121-126 | every entry for a line is that line's formatting with the commit hash and file name, and there are at most as many as rules |
| History.LineMatchesAppend | packages/cmd/scan.go:121-126 | the entries for a rule list split into two parts are the entries of the first part followed by those of the second; all entries for one line are the same string, so rule order is not visible in `matches` |
| History.LineMatchesCount | packages/cmd/scan.go:121-126 | a line matched by k rules yields exactly k entries (no deduplication) |
| History.LineMatchesMembership | packages/cmd/scan.go:121-126 | a string is among a line's entries exactly when it is the line's formatting and some rule matches the line |
| History.TextMatchesAppend | packages/cmd/scan.go:118-127 | lines are visited in order: the entries for concatenated lines are those of each part in turn |
| History.TextMatchesMembership | packages/cmd/scan.go:118-127 | a file's entries are exactly the formattings of its lines that some rule matches |
| HistoryProperties.FilesScanAppend | packages/cmd/scan.go:108-130 | files are visited in order and the first failing file decides the commit's result |
| HistoryProperties.HistoryScanAppend | packages/cmd/scan.go:102-133 | commits are visited in log order and the first failing commit decides the walk |
| HistoryProperties.FirstErrorStopsWalk | packages/cmd/scan.go:102-138 | when the walk up to commit k succeeded and commit k fails, the whole walk fails with commit k's error |
| HistoryProperties.WalkOnlyAppends | packages/cmd/scan.go:100-133 | the entries after any prefix of the log are a prefix of the final entries |
| HistoryProperties.IgnoredFilesIrrelevantInCommit | packages/cmd/scan.go:108-116 | within one commit, the content of ignored files does not affect the result |
| HistoryProperties.IgnoredFilesIrrelevant | packages/cmd/scan.go:109-111 | two histories that differ only in the content of ignored files give the same walk result, errors included |
| HistoryProperties.EmptyDirectoryFilesSilent | packages/cmd/scan.go:109-111 | with an empty directory entry, no file of a commit is read and the commit reports nothing |
| HistoryProperties.EmptyDirectorySilencesScan | packages/cmd/scan.go:109-111 | with an empty directory entry, a history whose trees can be listed reports nothing |
| HistoryProperties.FilesScanEntries | packages/cmd/scan.go:108-127 | a successful commit reports a string exactly when it is the entry of a line of a non-ignored file under a rule matching that line |
| HistoryProperties.HistoryScanEntries | packages/cmd/scan.go:102-133 | a successful walk reports a string exactly when it is the entry of a line of a non-ignored file of some commit under a matching rule |
| Scan.AppendLineMatches | packages/cmd/scan.go:121-126 | the rule loop appends exactly the line's entries to the accumulator |
| Scan.AppendTextMatches | packages/cmd/scan.go:118-127 | the line loop appends exactly the file's entries to the accumulator |
| Scan.VisitFile | packages/cmd/scan.go:108-130 | an ignored file appends nothing and succeeds; an unreadable one appends nothing and fails; otherwise all line entries are appended and the scanner's error is returned |
| Scan.VisitCommit | packages/cmd/scan.go:102-133 | the commit callback only appends, and ends as the specified commit step does: the tree's error, the first file error, or all of its files' entries |
| Scan.WalkHistory | packages/cmd/scan.go:100-138 | the loop's result is the specified walk: the entries in commit, file and line order, one per matching rule, or the first error |
| Scan.Conclude | packages/cmd/scan.go:140-157 | any entry means secrets found with those entries and status 1; none means "No secrets found" and status 0; the webhook is tried exactly when its URL is non-empty |
| Scan.ScanRepository | packages/cmd/scan.go:87-157 | the scan's outcome is the specified one: open or log failure, walk failure, or the decision on the walk's entries |
| Scan.ExitStatusZeroIffClean | packages/cmd/scan.go:135-157 | status is 0 exactly when the repository opened, the walk succeeded and it found no entry |
| Scan.WalkErrorReportsNothing | packages/cmd/scan.go:135-138 | a failed walk reports no entries, only its error |
| Scan.NotificationOnlyWithMatches | packages/cmd/scan.go:147-152 | the webhook is tried exactly when the walk found entries and a URL is configured |
| Scan.DeliveryDoesNotChangeResult | packages/cmd/scan.go:147-154 | the webhook's success or failure changes neither the exit status nor the reported entries |

## Left out

- Regular-expression semantics: `regexp.MustCompile` and `MatchString` are a
  foreign library. Matching is the abstract `Matcher`. The panic of
  `MustCompile` on an invalid pattern is not modelled.
- Line splitting by `bufio.Scanner` is taken as given: a file's content is the
  lines it yields plus its final error. This includes the error for a line
  over the scanner's 64 KiB token limit.
- Git access through go-git is input data: `PlainOpen`, `Log`, `Files` and
  `Contents`. This includes the log's order and whether an unchanged file
  appears in several commits. An iterator that fails part-way through its
  listing is not modelled separately from a tree that cannot be listed.
- Configuration loading is not modelled: `loadConfig` and `LoadConfig` (TOML
  parsing and file reads), and the exit on a config error.
- Report generation is file I/O and is not modelled: `generateReport` and
  packages/report/report.go (timestamp, JSON encoding, file write). Its error
  is discarded by the caller and cannot change the outcome.
- The Discord notification is an HTTP POST and is the abstract `Notifier`:
  `sendDiscordNotification` and packages/notify/notifiy.go.
- The cobra command and flag wiring is not modelled. The webhook URL flag is
  the `webhook` parameter.
- Printing is not modelled. `os.Exit` is the abstract `Outcome` and its
  `ExitStatus`.
