/** The commit history as the scan sees it, and the pure specification of
    the walk over it: commits in log order, then the files of each commit,
    then the lines of each file, then the rules in declaration order. */
module History {
  import opened Wrappers
  import opened Configuration
  import opened IgnoreFilter
  import opened MatchFormat

  /** What reading one file yields: `f.Contents()` fails, or the lines the
      line scanner produced together with the error `scanner.Err()` reports
      once it stops. */
  datatype Content =
    | Unreadable(error: string)
    | Text(lines: seq<string>, scanError: Option<string>)

  /** A file of a commit's tree; `name` is its path inside the tree. */
  datatype File = File(name: string, content: Content)

  /** What `c.Files()` yields for a commit. */
  datatype Tree = Files(files: seq<File>) | TreeError(error: string)

  datatype Commit = Commit(hash: HashText, tree: Tree)

  /** Sequencing of two steps of the walk: the first error wins, otherwise
      the entries of the second step follow those of the first. */
  function Chain(first: Result<seq<string>>, second: Result<seq<string>>): Result<seq<string>> {
    match first
    case Err(_) => first
    case Ok(before) =>
      match second
      case Err(e) => Err(e)
      case Ok(after) => Ok(before + after)
  }

  lemma ChainAssociative(x: Result<seq<string>>, y: Result<seq<string>>, z: Result<seq<string>>)
    ensures Chain(Chain(x, y), z) == Chain(x, Chain(y, z))
  {
    if x.Ok? && y.Ok? && z.Ok? {
      assert (x.value + y.value) + z.value == x.value + (y.value + z.value);
    }
  }

  lemma ChainStartsEmpty(x: Result<seq<string>>)
    ensures Chain(Ok([]), x) == x
  {
    if x.Ok? {
      assert [] + x.value == x.value;
    }
  }

  /** The entries one line yields: one per rule whose pattern matches it. */
  function LineMatches(hash: HashText, name: string, line: string, rules: seq<Rule>, m: Matcher): (r: seq<string>)
    ensures |r| <= |rules|
    ensures forall k :: 0 <= k < |r| ==> r[k] == FormatMatch(hash, name, line)
  {
    if rules == [] then []
    else
      (if m(rules[0].regex, line) then [FormatMatch(hash, name, line)] else [])
      + LineMatches(hash, name, line, rules[1..], m)
  }

  /** The entries the lines of one file yield, in line order. */
  function TextMatches(hash: HashText, name: string, lines: seq<string>, rules: seq<Rule>, m: Matcher): seq<string> {
    if lines == [] then []
    else LineMatches(hash, name, lines[0], rules, m) + TextMatches(hash, name, lines[1..], rules, m)
  }

  /** One file: nothing when ignored (its content is never read), otherwise
      its read error, its scanner error, or the entries of its lines. */
  function FileScan(hash: HashText, file: File, config: Config, m: Matcher): Result<seq<string>> {
    if IsIgnored(file.name, config.ignore) then Ok([])
    else
      match file.content
      case Unreadable(e) => Err(e)
      case Text(lines, scanError) =>
        if scanError.Some? then Err(scanError.value)
        else Ok(TextMatches(hash, file.name, lines, config.rules, m))
  }

  function FilesScan(hash: HashText, files: seq<File>, config: Config, m: Matcher): Result<seq<string>> {
    if files == [] then Ok([])
    else Chain(FileScan(hash, files[0], config, m), FilesScan(hash, files[1..], config, m))
  }

  function CommitScan(commit: Commit, config: Config, m: Matcher): Result<seq<string>> {
    match commit.tree
    case TreeError(e) => Err(e)
    case Files(files) => FilesScan(commit.hash, files, config, m)
  }

  /** The whole walk: the `matches` it accumulates, or the first error. */
  function HistoryScan(log: seq<Commit>, config: Config, m: Matcher): Result<seq<string>> {
    if log == [] then Ok([])
    else Chain(CommitScan(log[0], config, m), HistoryScan(log[1..], config, m))
  }

  // ---------------------------------------------------------------------
  // One line: one entry per matching rule, no deduplication.

  /** The indices of the rules whose pattern matches `line`. */
  function MatchingRules(rules: seq<Rule>, line: string, m: Matcher): set<int> {
    set j | 0 <= j < |rules| && m(rules[j].regex, line)
  }

  lemma {:induction false} LineMatchesAppend(hash: HashText, name: string, line: string, a: seq<Rule>, b: seq<Rule>, m: Matcher)
    ensures LineMatches(hash, name, line, a + b, m)
         == LineMatches(hash, name, line, a, m) + LineMatches(hash, name, line, b, m)
    decreases |a|
  {
    if a == [] {
      assert a + b == b;
    } else {
      assert (a + b)[0] == a[0];
      assert (a + b)[1..] == a[1..] + b;
      LineMatchesAppend(hash, name, line, a[1..], b, m);
    }
  }

  /** A line matched by k rules yields exactly k entries. */
  lemma {:induction false} LineMatchesCount(hash: HashText, name: string, line: string, rules: seq<Rule>, m: Matcher)
    ensures |LineMatches(hash, name, line, rules, m)| == |MatchingRules(rules, line, m)|
    decreases |rules|
  {
    if rules != [] {
      var n := |rules| - 1;
      var init := rules[..n];
      assert rules == init + [rules[n]];
      LineMatchesAppend(hash, name, line, init, [rules[n]], m);
      LineMatchesCount(hash, name, line, init, m);
      var before := MatchingRules(init, line, m);
      var after := MatchingRules(rules, line, m);
      if m(rules[n].regex, line) {
        assert after == before + {n};
      } else {
        assert after == before;
      }
    }
  }

  /** An entry comes from a line exactly when it is that line's formatting
      and some rule matches the line. */
  lemma {:induction false} LineMatchesMembership(hash: HashText, name: string, line: string, rules: seq<Rule>, m: Matcher, e: string)
    ensures e in LineMatches(hash, name, line, rules, m)
        <==> e == FormatMatch(hash, name, line) && exists j :: 0 <= j < |rules| && m(rules[j].regex, line)
  {
    var r := LineMatches(hash, name, line, rules, m);
    LineMatchesCount(hash, name, line, rules, m);
    if exists j :: 0 <= j < |rules| && m(rules[j].regex, line) {
      var j :| 0 <= j < |rules| && m(rules[j].regex, line);
      assert j in MatchingRules(rules, line, m);
      assert |r| > 0 && r[0] == FormatMatch(hash, name, line);
    } else {
      assert MatchingRules(rules, line, m) == {};
    }
  }

  // ---------------------------------------------------------------------
  // The lines of a file.

  lemma {:induction false} TextMatchesAppend(hash: HashText, name: string, a: seq<string>, b: seq<string>, rules: seq<Rule>, m: Matcher)
    ensures TextMatches(hash, name, a + b, rules, m)
         == TextMatches(hash, name, a, rules, m) + TextMatches(hash, name, b, rules, m)
    decreases |a|
  {
    if a == [] {
      assert a + b == b;
    } else {
      assert (a + b)[0] == a[0];
      assert (a + b)[1..] == a[1..] + b;
      TextMatchesAppend(hash, name, a[1..], b, rules, m);
    }
  }

  /** The entries of a file are exactly the formattings of its lines that
      some rule matches. */
  lemma {:induction false} TextMatchesMembership(hash: HashText, name: string, lines: seq<string>, rules: seq<Rule>, m: Matcher, e: string)
    ensures e in TextMatches(hash, name, lines, rules, m)
        <==> exists i, j :: 0 <= i < |lines| && 0 <= j < |rules| && m(rules[j].regex, lines[i])
                            && e == FormatMatch(hash, name, lines[i])
    decreases |lines|
  {
    if lines != [] {
      LineMatchesMembership(hash, name, lines[0], rules, m, e);
      TextMatchesMembership(hash, name, lines[1..], rules, m, e);
      if e in TextMatches(hash, name, lines, rules, m) {
        if e in LineMatches(hash, name, lines[0], rules, m) {
          var j :| 0 <= j < |rules| && m(rules[j].regex, lines[0]);
          assert m(rules[j].regex, lines[0]) && e == FormatMatch(hash, name, lines[0]);
        } else {
          var i, j :| 0 <= i < |lines[1..]| && 0 <= j < |rules| && m(rules[j].regex, lines[1..][i])
                      && e == FormatMatch(hash, name, lines[1..][i]);
          assert lines[i + 1] == lines[1..][i];
        }
      }
      if exists i, j :: 0 <= i < |lines| && 0 <= j < |rules| && m(rules[j].regex, lines[i])
                        && e == FormatMatch(hash, name, lines[i]) {
        var i, j :| 0 <= i < |lines| && 0 <= j < |rules| && m(rules[j].regex, lines[i])
                    && e == FormatMatch(hash, name, lines[i]);
        if i > 0 {
          assert lines[1..][i - 1] == lines[i];
        }
      }
    }
  }
}
