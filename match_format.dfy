/** The text of one reported entry, "Match found in commit %s, file %s: %s",
    and a decoder that recovers the hash, file name and line from it. */
module MatchFormat {
  import opened Wrappers

  /** go-git prints a commit hash as 40 lower-case hexadecimal digits. */
  const HashTextLength: nat := 40

  predicate IsHexDigit(c: char) {
    '0' <= c <= '9' || 'a' <= c <= 'f'
  }

  predicate IsHashText(s: string) {
    |s| == HashTextLength && forall i :: 0 <= i < |s| ==> IsHexDigit(s[i])
  }

  type HashText = s: string | IsHashText(s)
    witness "0000000000000000000000000000000000000000"

  const CommitLabel := "Match found in commit "
  const FileLabel := ", file "
  const LineLabel := ": "

  /** Offset at which the file name starts in an entry. */
  const NameStart: nat := |CommitLabel| + HashTextLength + |FileLabel|

  /** The `fmt.Sprintf` of one entry: hash, file name and line, verbatim. */
  function FormatMatch(hash: HashText, name: string, line: string): string {
    CommitLabel + hash + FileLabel + name + LineLabel + line
  }

  /** The two characters at `i` are the separator ": ". */
  predicate SeparatorAt(s: string, i: int) {
    0 <= i && i + 1 < |s| && s[i] == ':' && s[i + 1] == ' '
  }

  predicate HasNoSeparator(s: string) {
    forall i :: 0 <= i < |s| ==> !SeparatorAt(s, i)
  }

  /** The first position at or after `from` where ": " occurs, or `|s|`. */
  function FindSeparator(s: string, from: nat): (k: nat)
    requires from <= |s|
    ensures from <= k <= |s|
    ensures k < |s| ==> SeparatorAt(s, k)
    ensures forall i :: from <= i < k ==> !SeparatorAt(s, i)
    decreases |s| - from
  {
    if from + 1 >= |s| then |s|
    else if SeparatorAt(s, from) then from
    else FindSeparator(s, from + 1)
  }

  /** Decodes an entry into (hash, file name, line), splitting the name from
      the line at the first ": " after the hash. */
  function ParseMatch(entry: string): Option<(HashText, string, string)> {
    var hashStart := |CommitLabel|;
    var hashEnd := hashStart + HashTextLength;
    if |entry| < NameStart || entry[..hashStart] != CommitLabel
       || !IsHashText(entry[hashStart..hashEnd]) || entry[hashEnd..NameStart] != FileLabel
    then None
    else
      var k := FindSeparator(entry, NameStart);
      if k == |entry| then None
      else Some((entry[hashStart..hashEnd], entry[NameStart..k], entry[k + 2..]))
  }

  /** The entry carries its three parts at fixed places. */
  lemma FormatMatchEmbeds(hash: HashText, name: string, line: string)
    ensures var e := FormatMatch(hash, name, line);
      && |e| == NameStart + |name| + |LineLabel| + |line|
      && e[..|CommitLabel|] == CommitLabel
      && e[|CommitLabel|..|CommitLabel| + HashTextLength] == hash
      && e[NameStart..NameStart + |name|] == name
      && e[|e| - |line|..] == line
  {
  }

  /** Decoding inverts formatting whenever the file name holds no ": ". */
  lemma {:induction false} ParseFormatted(hash: HashText, name: string, line: string)
    requires HasNoSeparator(name)
    ensures ParseMatch(FormatMatch(hash, name, line)) == Some((hash, name, line))
  {
    var e := FormatMatch(hash, name, line);
    var sep := NameStart + |name|;
    FormatMatchEmbeds(hash, name, line);
    assert e[|CommitLabel| + HashTextLength..NameStart] == FileLabel;
    assert e[sep] == ':' && e[sep + 1] == ' ';
    assert SeparatorAt(e, sep);
    forall i | NameStart <= i < sep
      ensures !SeparatorAt(e, i)
    {
      if i + 1 < sep {
        assert e[i] == name[i - NameStart] && e[i + 1] == name[i + 1 - NameStart];
        assert !SeparatorAt(name, i - NameStart);
      } else {
        assert e[i + 1] == ':';
      }
    }
    var k := FindSeparator(e, NameStart);
    assert k == sep;
    assert e[k + 2..] == line;
  }

  /** Every decodable entry is the formatting of what it decodes to. */
  lemma {:induction false} ParsedReformats(entry: string)
    requires ParseMatch(entry).Some?
    ensures var (hash, name, line) := ParseMatch(entry).value;
      HasNoSeparator(name) && FormatMatch(hash, name, line) == entry
  {
    var (hash, name, line) := ParseMatch(entry).value;
    var k := FindSeparator(entry, NameStart);
    assert name == entry[NameStart..k];
    forall i | 0 <= i < |name|
      ensures !SeparatorAt(name, i)
    {
      assert !SeparatorAt(entry, NameStart + i);
      assert entry[NameStart + i] == name[i];
      if i + 1 < |name| {
        assert entry[NameStart + i + 1] == name[i + 1];
      }
    }
    assert entry[k..k + 2] == LineLabel;
    calc {
      entry;
      entry[..|CommitLabel|] + entry[|CommitLabel|..|CommitLabel| + HashTextLength]
        + entry[|CommitLabel| + HashTextLength..NameStart] + entry[NameStart..k]
        + entry[k..k + 2] + entry[k + 2..];
      CommitLabel + hash + FileLabel + name + LineLabel + line;
    }
  }

  /** Without that restriction the format is ambiguous. */
  lemma NameWithSeparatorIsAmbiguous(hash: HashText)
    ensures FormatMatch(hash, "a: b", "c") == FormatMatch(hash, "a", "b: c")
  {
  }
}
