/** The configuration record that `scan` reads from its TOML file
    (type declarations of packages/cmd/scan.go and packages/config/config.go). */
module Configuration {

  /** One detection rule. The scan consults `regex` only: `secretGroup` and
      `keywords` are carried but never read. */
  datatype Rule = Rule(
    description: string,
    id: string,
    regex: string,
    secretGroup: int,
    keywords: seq<string>)

  /** The explicit ignore lists: exact file names and directory prefixes. */
  datatype Ignore = Ignore(files: seq<string>, directories: seq<string>)

  datatype Config = Config(rules: seq<Rule>, ignore: Ignore)

  /** The regular-expression engine, left abstract: `m(pattern, line)` is
      whether the compiled `pattern` matches somewhere in `line`. */
  type Matcher = (string, string) -> bool
}
