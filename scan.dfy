/** `scanRepository`: the nested walk that grows `matches`, and the final
    decision between reporting secrets, reporting none, and failing. */
module Scan {
  import opened Wrappers
  import opened Configuration
  import opened IgnoreFilter
  import opened MatchFormat
  import opened History

  /** How a stage of the walk left things: the grown `matches`, or the
      error that stopped it. */
  function Status(matches: seq<string>, err: Option<string>): Result<seq<string>> {
    if err.None? then Ok(matches) else Err(err.value)
  }

  /** The rule loop for one line (scan.go lines 121-126): the pattern of
      every rule, in declaration order, is tried on the line and each hit
      appends one entry. */
  method AppendLineMatches(hash: HashText, name: string, line: string, rules: seq<Rule>, m: Matcher, matches: seq<string>)
    returns (matches': seq<string>)
    ensures matches' == matches + LineMatches(hash, name, line, rules, m)
  {
    matches' := matches;
    for j := 0 to |rules|
      invariant matches' + LineMatches(hash, name, line, rules[j..], m)
             == matches + LineMatches(hash, name, line, rules, m)
    {
      assert rules[j..][0] == rules[j] && rules[j..][1..] == rules[j + 1..];
      if m(rules[j].regex, line) {
        matches' := matches' + [FormatMatch(hash, name, line)];
      }
    }
    assert rules[|rules|..] == [];
  }

  /** The line loop of one file (scan.go lines 118-127): every line the
      scanner yields, in order, goes through the rule loop. */
  method AppendTextMatches(hash: HashText, name: string, lines: seq<string>, rules: seq<Rule>, m: Matcher, matches: seq<string>)
    returns (matches': seq<string>)
    ensures matches' == matches + TextMatches(hash, name, lines, rules, m)
  {
    matches' := matches;
    for i := 0 to |lines|
      invariant matches' + TextMatches(hash, name, lines[i..], rules, m)
             == matches + TextMatches(hash, name, lines, rules, m)
    {
      assert lines[i..][0] == lines[i] && lines[i..][1..] == lines[i + 1..];
      matches' := AppendLineMatches(hash, name, lines[i], rules, m, matches');
    }
    assert lines[|lines|..] == [];
  }

  /** The per-file callback: skip an ignored file, read the content, and
      append one entry per matching rule for every line the line scanner
      yields, before returning the scanner's error. */
  method VisitFile(hash: HashText, file: File, config: Config, m: Matcher, matches: seq<string>)
    returns (matches': seq<string>, err: Option<string>)
    ensures Status(matches', err) == Chain(Ok(matches), FileScan(hash, file, config, m))
    ensures IsIgnored(file.name, config.ignore) ==> matches' == matches && err == None
    ensures !IsIgnored(file.name, config.ignore) && file.content.Unreadable? ==>
              matches' == matches && err == Some(file.content.error)
    ensures !IsIgnored(file.name, config.ignore) && file.content.Text? ==>
              && matches' == matches + TextMatches(hash, file.name, file.content.lines, config.rules, m)
              && err == file.content.scanError
  {
    var ignored := ShouldIgnore(file.name, config);
    if ignored {
      assert matches + [] == matches;
      return matches, None;
    }
    match file.content
    case Unreadable(e) =>
      return matches, Some(e);
    case Text(lines, scanError) =>
      matches' := AppendTextMatches(hash, file.name, lines, config.rules, m, matches);
      err := scanError;
  }

  /** The per-commit callback: list the commit's files and visit them in
      order, stopping at the first error. */
  method VisitCommit(commit: Commit, config: Config, m: Matcher, matches: seq<string>)
    returns (matches': seq<string>, err: Option<string>)
    ensures Status(matches', err) == Chain(Ok(matches), CommitScan(commit, config, m))
    ensures matches <= matches'
  {
    match commit.tree
    case TreeError(e) =>
      return matches, Some(e);
    case Files(files) =>
      matches' := matches;
      for k := 0 to |files|
        invariant matches <= matches'
        invariant Chain(Ok(matches'), FilesScan(commit.hash, files[k..], config, m))
               == Chain(Ok(matches), FilesScan(commit.hash, files, config, m))
      {
        assert files[k..][0] == files[k] && files[k..][1..] == files[k + 1..];
        ChainAssociative(Ok(matches'), FileScan(commit.hash, files[k], config, m),
                         FilesScan(commit.hash, files[k + 1..], config, m));
        var grown, fileErr := VisitFile(commit.hash, files[k], config, m, matches');
        if fileErr.Some? {
          return grown, fileErr;
        }
        matches' := grown;
      }
      assert files[|files|..] == [] && matches' + [] == matches';
      err := None;
  }

  /** The walk over the commit log (scan.go lines 100-138): the entries in
      log, file and line order, one per matching rule, or the first error. */
  method WalkHistory(log: seq<Commit>, config: Config, m: Matcher) returns (result: Result<seq<string>>)
    ensures result == HistoryScan(log, config, m)
  {
    var matches: seq<string> := [];
    ChainStartsEmpty(HistoryScan(log, config, m));
    for k := 0 to |log|
      invariant Chain(Ok(matches), HistoryScan(log[k..], config, m)) == HistoryScan(log, config, m)
    {
      assert log[k..][0] == log[k] && log[k..][1..] == log[k + 1..];
      ChainAssociative(Ok(matches), CommitScan(log[k], config, m), HistoryScan(log[k + 1..], config, m));
      var grown, err := VisitCommit(log[k], config, m, matches);
      if err.Some? {
        return Err(err.value);
      }
      matches := grown;
    }
    assert log[|log|..] == [] && matches + [] == matches;
    return Ok(matches);
  }

  // ---------------------------------------------------------------------
  // The outcome of a scan.

  /** What opening the repository and asking for its log yields. */
  datatype Repository =
    | Unopenable(error: string)
    | LogUnavailable(error: string)
    | Opened(log: seq<Commit>)

  /** Why a scan exits with status 1 without reporting anything. */
  datatype Failure = OpenFailed(error: string) | LogFailed(error: string) | WalkFailed(error: string)

  datatype Notification = NotAttempted | Delivered | DeliveryFailed(error: string)

  /** The observable end of a scan: a failure message, the list of entries
      printed and written to the report (with the webhook's fate), or
      "No secrets found". */
  datatype Outcome =
    | Failed(failure: Failure)
    | SecretsFound(matches: seq<string>, notification: Notification)
    | NoSecretsFound

  const NotificationText := "Secrets found in repository"

  /** The webhook delivery, left abstract: for a URL and a message, the
      error the POST ends in, if any. */
  type Notifier = (string, string) -> Option<string>

  /** The process status: `os.Exit(1)` on failure and on secrets, normal
      return (status 0) otherwise. */
  function ExitStatus(o: Outcome): int {
    if o.NoSecretsFound? then 0 else 1
  }

  /** The decision of scan.go lines 140-157, once the walk succeeded. */
  function Conclude(matches: seq<string>, webhook: string, notify: Notifier): (o: Outcome)
    ensures !o.Failed?
    ensures o.SecretsFound? <==> |matches| > 0
    ensures ExitStatus(o) == (if |matches| > 0 then 1 else 0)
    ensures o.SecretsFound? ==> o.matches == matches
    ensures o.SecretsFound? ==> (o.notification.NotAttempted? <==> webhook == "")
    ensures o.SecretsFound? && webhook != "" ==>
              (o.notification.Delivered? <==> notify(webhook, NotificationText).None?)
  {
    if |matches| > 0 then
      var notification :=
        if webhook == "" then NotAttempted
        else match notify(webhook, NotificationText)
             case None => Delivered
             case Some(e) => DeliveryFailed(e);
      SecretsFound(matches, notification)
    else
      NoSecretsFound
  }

  /** The whole of `scanRepository`, as a function of its inputs. */
  function ScanOutcome(repo: Repository, config: Config, webhook: string, m: Matcher, notify: Notifier): Outcome {
    match repo
    case Unopenable(e) => Failed(OpenFailed(e))
    case LogUnavailable(e) => Failed(LogFailed(e))
    case Opened(log) =>
      match HistoryScan(log, config, m)
      case Err(e) => Failed(WalkFailed(e))
      case Ok(matches) => Conclude(matches, webhook, notify)
  }

  method ScanRepository(repo: Repository, config: Config, webhook: string, m: Matcher, notify: Notifier)
    returns (o: Outcome)
    ensures o == ScanOutcome(repo, config, webhook, m, notify)
  {
    match repo
    case Unopenable(e) =>
      return Failed(OpenFailed(e));
    case LogUnavailable(e) =>
      return Failed(LogFailed(e));
    case Opened(log) =>
      var result := WalkHistory(log, config, m);
      if result.Err? {
        return Failed(WalkFailed(result.error));
      }
      o := Conclude(result.value, webhook, notify);
  }

  /** Status 0 exactly when the repository opened, the walk succeeded and
      it found nothing. */
  lemma ExitStatusZeroIffClean(repo: Repository, config: Config, webhook: string, m: Matcher, notify: Notifier)
    ensures ExitStatus(ScanOutcome(repo, config, webhook, m, notify)) == 0
        <==> repo.Opened? && HistoryScan(repo.log, config, m) == Ok([])
  {
  }

  /** A failed walk reports no entries, however many were collected before
      the error. */
  lemma WalkErrorReportsNothing(log: seq<Commit>, config: Config, webhook: string, m: Matcher, notify: Notifier)
    requires HistoryScan(log, config, m).Err?
    ensures ScanOutcome(Opened(log), config, webhook, m, notify)
         == Failed(WalkFailed(HistoryScan(log, config, m).error))
  {
  }

  /** The webhook is tried exactly when a URL is configured and there are
      matches to report. */
  lemma NotificationOnlyWithMatches(repo: Repository, config: Config, webhook: string, m: Matcher, notify: Notifier)
    ensures var o := ScanOutcome(repo, config, webhook, m, notify);
      (o.SecretsFound? && !o.notification.NotAttempted?)
      <==> (repo.Opened? && HistoryScan(repo.log, config, m).Ok?
            && |HistoryScan(repo.log, config, m).value| > 0 && webhook != "")
  {
  }

  /** Whatever the webhook does, the exit status and the reported entries stay the same. */
  lemma DeliveryDoesNotChangeResult(repo: Repository, config: Config, webhook: string, m: Matcher, notify: Notifier, other: Notifier)
    ensures var o, p := ScanOutcome(repo, config, webhook, m, notify), ScanOutcome(repo, config, webhook, m, other);
      ExitStatus(o) == ExitStatus(p) && (o.SecretsFound? ==> p.SecretsFound? && o.matches == p.matches)
  {
  }
}
