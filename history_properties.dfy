/** Properties of the specified walk, across files and commits. */
module HistoryProperties {
  import opened Wrappers
  import opened Configuration
  import opened IgnoreFilter
  import opened MatchFormat
  import opened History

  // ---------------------------------------------------------------------
  // Order: the walk over a concatenation is the first part's walk followed
  // by the second's, and an error in the first part preempts the second.

  lemma {:induction false} FilesScanAppend(hash: HashText, a: seq<File>, b: seq<File>, config: Config, m: Matcher)
    ensures FilesScan(hash, a + b, config, m)
         == Chain(FilesScan(hash, a, config, m), FilesScan(hash, b, config, m))
    decreases |a|
  {
    if a == [] {
      assert a + b == b;
      ChainStartsEmpty(FilesScan(hash, b, config, m));
    } else {
      assert (a + b)[0] == a[0];
      assert (a + b)[1..] == a[1..] + b;
      FilesScanAppend(hash, a[1..], b, config, m);
      ChainAssociative(FileScan(hash, a[0], config, m), FilesScan(hash, a[1..], config, m), FilesScan(hash, b, config, m));
    }
  }

  lemma {:induction false} HistoryScanAppend(a: seq<Commit>, b: seq<Commit>, config: Config, m: Matcher)
    ensures HistoryScan(a + b, config, m) == Chain(HistoryScan(a, config, m), HistoryScan(b, config, m))
    decreases |a|
  {
    if a == [] {
      assert a + b == b;
      ChainStartsEmpty(HistoryScan(b, config, m));
    } else {
      assert (a + b)[0] == a[0];
      assert (a + b)[1..] == a[1..] + b;
      HistoryScanAppend(a[1..], b, config, m);
      ChainAssociative(CommitScan(a[0], config, m), HistoryScan(a[1..], config, m), HistoryScan(b, config, m));
    }
  }

  /** The first commit whose tree or some file of it fails decides the walk:
      it fails with that error, whatever later commits hold. */
  lemma FirstErrorStopsWalk(log: seq<Commit>, k: nat, config: Config, m: Matcher)
    requires k < |log|
    requires HistoryScan(log[..k], config, m).Ok?
    requires CommitScan(log[k], config, m).Err?
    ensures HistoryScan(log, config, m) == CommitScan(log[k], config, m)
  {
    assert log == log[..k] + log[k..];
    HistoryScanAppend(log[..k], log[k..], config, m);
    assert log[k..][0] == log[k];
  }

  /** `matches` is only appended to: every stage of a successful walk holds
      a prefix of its final entries. */
  lemma WalkOnlyAppends(log: seq<Commit>, k: nat, config: Config, m: Matcher)
    requires k <= |log|
    requires HistoryScan(log, config, m).Ok?
    ensures HistoryScan(log[..k], config, m).Ok?
    ensures HistoryScan(log[..k], config, m).value <= HistoryScan(log, config, m).value
  {
    assert log == log[..k] + log[k..];
    HistoryScanAppend(log[..k], log[k..], config, m);
  }

  // ---------------------------------------------------------------------
  // The content of an ignored file is never consulted.

  /** Two files that agree except, perhaps, in the content of an ignored one. */
  predicate FileAgrees(f: File, g: File, ig: Ignore) {
    f.name == g.name && (IsIgnored(f.name, ig) || f.content == g.content)
  }

  predicate FilesAgree(fs: seq<File>, gs: seq<File>, ig: Ignore) {
    |fs| == |gs| && forall k :: 0 <= k < |fs| ==> FileAgrees(fs[k], gs[k], ig)
  }

  predicate CommitAgrees(c: Commit, d: Commit, ig: Ignore) {
    c.hash == d.hash
    && match c.tree
       case TreeError(_) => d.tree == c.tree
       case Files(fs) => d.tree.Files? && FilesAgree(fs, d.tree.files, ig)
  }

  predicate HistoriesAgree(log: seq<Commit>, other: seq<Commit>, ig: Ignore) {
    |log| == |other| && forall k :: 0 <= k < |log| ==> CommitAgrees(log[k], other[k], ig)
  }

  lemma {:induction false} IgnoredFilesIrrelevantInCommit(hash: HashText, fs: seq<File>, gs: seq<File>, config: Config, m: Matcher)
    requires FilesAgree(fs, gs, config.ignore)
    ensures FilesScan(hash, fs, config, m) == FilesScan(hash, gs, config, m)
    decreases |fs|
  {
    if fs != [] {
      assert FileAgrees(fs[0], gs[0], config.ignore);
      assert FileScan(hash, fs[0], config, m) == FileScan(hash, gs[0], config, m);
      assert FilesAgree(fs[1..], gs[1..], config.ignore) by {
        forall k | 0 <= k < |fs[1..]|
          ensures FileAgrees(fs[1..][k], gs[1..][k], config.ignore)
        {
          assert FileAgrees(fs[k + 1], gs[k + 1], config.ignore);
        }
      }
      IgnoredFilesIrrelevantInCommit(hash, fs[1..], gs[1..], config, m);
    }
  }

  /** Changing what ignored files contain never changes the outcome of the walk. */
  lemma {:induction false} IgnoredFilesIrrelevant(log: seq<Commit>, other: seq<Commit>, config: Config, m: Matcher)
    requires HistoriesAgree(log, other, config.ignore)
    ensures HistoryScan(log, config, m) == HistoryScan(other, config, m)
    decreases |log|
  {
    if log != [] {
      var c, d := log[0], other[0];
      assert CommitAgrees(c, d, config.ignore);
      if c.tree.Files? {
        IgnoredFilesIrrelevantInCommit(c.hash, c.tree.files, d.tree.files, config, m);
      }
      assert CommitScan(c, config, m) == CommitScan(d, config, m);
      assert HistoriesAgree(log[1..], other[1..], config.ignore) by {
        forall k | 0 <= k < |log[1..]|
          ensures CommitAgrees(log[1..][k], other[1..][k], config.ignore)
        {
          assert CommitAgrees(log[k + 1], other[k + 1], config.ignore);
        }
      }
      IgnoredFilesIrrelevant(log[1..], other[1..], config, m);
    }
  }

  /** An empty directory entry silences the scan of any history whose trees
      can be listed: no file is read, nothing is reported. */
  lemma {:induction false} EmptyDirectorySilencesScan(log: seq<Commit>, config: Config, m: Matcher)
    requires "" in config.ignore.directories
    requires forall k :: 0 <= k < |log| ==> log[k].tree.Files?
    ensures HistoryScan(log, config, m) == Ok([])
    decreases |log|
  {
    if log != [] {
      EmptyDirectoryFilesSilent(log[0].hash, log[0].tree.files, config, m);
      assert forall k :: 0 <= k < |log[1..]| ==> log[1..][k] == log[k + 1];
      EmptyDirectorySilencesScan(log[1..], config, m);
      ChainStartsEmpty(Ok([]));
    }
  }

  lemma {:induction false} EmptyDirectoryFilesSilent(hash: HashText, files: seq<File>, config: Config, m: Matcher)
    requires "" in config.ignore.directories
    ensures FilesScan(hash, files, config, m) == Ok([])
    decreases |files|
  {
    if files != [] {
      EmptyDirectoryIgnoresAll(files[0].name, config.ignore);
      EmptyDirectoryFilesSilent(hash, files[1..], config, m);
      assert FileScan(hash, files[0], config, m) == Ok([]);
      ChainStartsEmpty(Ok([]));
    }
  }

  // ---------------------------------------------------------------------
  // Exactly which entries a successful walk reports.

  /** `e` is the entry for line `i` of file `fi` under rule `j`: the file is
      not ignored, the rule's pattern matches the line. */
  predicate ReportedFor(hash: HashText, files: seq<File>, config: Config, m: Matcher, fi: int, i: int, j: int, e: string) {
    && 0 <= fi < |files|
    && !IsIgnored(files[fi].name, config.ignore)
    && files[fi].content.Text?
    && 0 <= i < |files[fi].content.lines|
    && 0 <= j < |config.rules|
    && m(config.rules[j].regex, files[fi].content.lines[i])
    && e == FormatMatch(hash, files[fi].name, files[fi].content.lines[i])
  }

  /** The same, for file `fi` of commit `c` of the log. */
  predicate ReportedIn(log: seq<Commit>, config: Config, m: Matcher, c: int, fi: int, i: int, j: int, e: string) {
    0 <= c < |log| && log[c].tree.Files?
    && ReportedFor(log[c].hash, log[c].tree.files, config, m, fi, i, j, e)
  }

  lemma {:induction false} FilesScanEntries(hash: HashText, files: seq<File>, config: Config, m: Matcher, e: string)
    requires FilesScan(hash, files, config, m).Ok?
    ensures e in FilesScan(hash, files, config, m).value
        <==> exists fi, i, j :: ReportedFor(hash, files, config, m, fi, i, j, e)
    decreases |files|
  {
    if files != [] {
      var f := files[0];
      var rest := files[1..];
      FilesScanEntries(hash, rest, config, m, e);
      var head := FileScan(hash, f, config, m);
      assert head.Ok?;
      if !IsIgnored(f.name, config.ignore) {
        TextMatchesMembership(hash, f.name, f.content.lines, config.rules, m, e);
      }
      if e in FilesScan(hash, files, config, m).value {
        if e in head.value {
          var i, j :| 0 <= i < |f.content.lines| && 0 <= j < |config.rules|
                      && m(config.rules[j].regex, f.content.lines[i]) && e == FormatMatch(hash, f.name, f.content.lines[i]);
          assert ReportedFor(hash, files, config, m, 0, i, j, e);
        } else {
          var fi, i, j :| ReportedFor(hash, rest, config, m, fi, i, j, e);
          assert rest[fi] == files[fi + 1];
          assert ReportedFor(hash, files, config, m, fi + 1, i, j, e);
        }
      }
      if exists fi, i, j :: ReportedFor(hash, files, config, m, fi, i, j, e) {
        var fi, i, j :| ReportedFor(hash, files, config, m, fi, i, j, e);
        if fi == 0 {
          assert e in head.value;
        } else {
          assert rest[fi - 1] == files[fi];
          assert ReportedFor(hash, rest, config, m, fi - 1, i, j, e);
        }
      }
    }
  }

  /** A successful walk reports `e` exactly when `e` is the entry of some
      line of some non-ignored file of some commit under some matching rule. */
  lemma {:induction false} HistoryScanEntries(log: seq<Commit>, config: Config, m: Matcher, e: string)
    requires HistoryScan(log, config, m).Ok?
    ensures e in HistoryScan(log, config, m).value
        <==> exists c, fi, i, j :: ReportedIn(log, config, m, c, fi, i, j, e)
    decreases |log|
  {
    if log != [] {
      var commit := log[0];
      var rest := log[1..];
      HistoryScanEntries(rest, config, m, e);
      var head := CommitScan(commit, config, m);
      assert head.Ok? && commit.tree.Files?;
      FilesScanEntries(commit.hash, commit.tree.files, config, m, e);
      if e in HistoryScan(log, config, m).value {
        if e in head.value {
          var fi, i, j :| ReportedFor(commit.hash, commit.tree.files, config, m, fi, i, j, e);
          assert ReportedIn(log, config, m, 0, fi, i, j, e);
        } else {
          var c, fi, i, j :| ReportedIn(rest, config, m, c, fi, i, j, e);
          assert rest[c] == log[c + 1];
          assert ReportedIn(log, config, m, c + 1, fi, i, j, e);
        }
      }
      if exists c, fi, i, j :: ReportedIn(log, config, m, c, fi, i, j, e) {
        var c, fi, i, j :| ReportedIn(log, config, m, c, fi, i, j, e);
        if c == 0 {
          assert e in head.value;
        } else {
          assert rest[c - 1] == log[c];
          assert ReportedIn(rest, config, m, c - 1, fi, i, j, e);
        }
      }
    }
  }
}
