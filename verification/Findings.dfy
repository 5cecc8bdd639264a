/** Audit reports and findings, as the identity recipe and the match ladder read them. */
module Findings {

  datatype Option<+T> = None | Some(value: T) {
    function GetOr(default: T): T { if Some? then value else default }
  }

  /** The content of a finding: canonical location paths, primary CWE, title. */
  datatype Content = Content(paths: set<string>, cwe: string, title: string)

  /** A finding of a report; an empty `stamp` means that no fingerprint is stored. */
  datatype Finding = Finding(id: string, content: Content, stamp: string)

  datatype Report = Report(fileName: string, repository: string, findings: seq<Finding>)

  /** The computations that live in other packages: the identity hash and difflib's title similarity. */
  datatype Recipe = Recipe(
    fingerprint: (Content, string) -> string,
    titleSimilarity: (string, string) -> real)

  /** The stored fingerprint, or the computed one where none is stored. */
  function Fingerprint(recipe: Recipe, f: Finding, repository: string): string {
    if f.stamp != "" then f.stamp else recipe.fingerprint(f.content, repository)
  }

  /** Finding ids are distinct within one report. */
  ghost predicate DistinctIds(fs: seq<Finding>) {
    forall i, j :: 0 <= i < j < |fs| ==> fs[i].id != fs[j].id
  }

  function Ids(fs: seq<Finding>): set<string> {
    set f | f in fs :: f.id
  }
}
