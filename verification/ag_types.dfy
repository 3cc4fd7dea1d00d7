/** The records of the grep-search workflow (`AgMatch`, `AgSearchResult`) and its constants. */
module AgTypes {

  /** Matches kept per search before it is stopped and marked truncated. */
  const MaxMatches: nat := 1000

  /** Longest stored match text, the `"..."` suffix included. */
  const MaxLineLength: nat := 300

  /** One parsed output line of the search tool. */
  datatype AgMatch = AgMatch(filePath: string, lineNo: nat, text: string)

  /** The state of the current search, shown as one text document. */
  datatype SearchResult = SearchResult(
    dirPath: string,
    pattern: string,
    matches: seq<AgMatch>,
    inProgress: bool,
    truncated: bool)

}
