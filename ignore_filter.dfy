/** The path-ignore decision `shouldIgnore`. */
module IgnoreFilter {
  import opened Configuration

  /** `strings.HasPrefix`: `prefix` is a character-wise prefix of `s`. */
  predicate HasPrefix(s: string, prefix: string) {
    |prefix| <= |s| && s[..|prefix|] == prefix
  }

  /** The file's path equals an entry of the explicit file list. */
  predicate ListedFile(file: string, ig: Ignore) {
    file in ig.files
  }

  /** Some entry of the directory list is a plain character prefix of the
      path; there is no notion of path segments. */
  predicate UnderIgnoredDirectory(file: string, ig: Ignore) {
    exists dir :: dir in ig.directories && HasPrefix(file, dir)
  }

  /** The ignore decision: these two criteria and nothing else. */
  predicate IsIgnored(file: string, ig: Ignore) {
    ListedFile(file, ig) || UnderIgnoredDirectory(file, ig)
  }

  /** The two early-return search loops of `shouldIgnore`: the file list
      first, then the directory list. */
  method ShouldIgnore(file: string, config: Config) returns (ignored: bool)
    ensures ignored <==> IsIgnored(file, config.ignore)
  {
    var ig := config.ignore;
    for i := 0 to |ig.files|
      invariant forall k :: 0 <= k < i ==> ig.files[k] != file
    {
      if file == ig.files[i] {
        return true;
      }
    }
    for j := 0 to |ig.directories|
      invariant forall k :: 0 <= k < j ==> !HasPrefix(file, ig.directories[k])
    {
      if HasPrefix(file, ig.directories[j]) {
        return true;
      }
    }
    return false;
  }

  lemma ExactNameIgnored(file: string, ig: Ignore)
    requires file in ig.files
    ensures IsIgnored(file, ig)
  {
  }

  lemma DirectoryPrefixIgnored(file: string, dir: string, ig: Ignore)
    requires dir in ig.directories && HasPrefix(file, dir)
    ensures IsIgnored(file, ig)
  {
  }

  /** An empty directory entry is a prefix of every path. */
  lemma EmptyDirectoryIgnoresAll(file: string, ig: Ignore)
    requires "" in ig.directories
    ensures IsIgnored(file, ig)
  {
  }

  /** Neither list is path-aware: the directory entry "src" also hides
      "srcfoo.go", and the file entry "a.txt" does not hide "dir/a.txt". */
  lemma MatchingIsNotPathAware()
    ensures IsIgnored("srcfoo.go", Ignore([], ["src"]))
    ensures IsIgnored("src/main.go", Ignore([], ["src"]))
    ensures !IsIgnored("lib/src.go", Ignore([], ["src"]))
    ensures !IsIgnored("dir/a.txt", Ignore(["a.txt"], []))
  {
    assert HasPrefix("srcfoo.go", "src");
    assert HasPrefix("src/main.go", "src");
    assert "lib/src.go"[..3] == "lib";
    assert !HasPrefix("lib/src.go", "src");
  }
}
