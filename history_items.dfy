/**
 * The history entries a label is rendered for: a run of one query against a
 * single local database, or a run of one query against many remote
 * repositories through a controller repository.
 */
module HistoryItems {
  import opened Wrappers

  /**
   * One query-history entry. Both kinds carry the user's own label (if any),
   * the start time already formatted for display, the query's name, its
   * status text and its result count.
   */
  datatype HistoryEntry =
    | Local(
        userSpecifiedLabel: Option<string>,
        startTime: string,
        queryName: string,
        queryFileName: string,
        databaseName: string,
        status: string,
        resultCount: nat)
    | Remote(
        userSpecifiedLabel: Option<string>,
        startTime: string,
        queryName: string,
        language: string,
        queryFilePath: string,
        controllerOwner: string,
        controllerName: string,
        repositoryCount: nat,
        status: string,
        resultCount: nat)

  /** The final component of a '/'-separated path: everything after the last '/'. */
  function BaseName(path: string): (name: string)
    ensures '/' !in name
    ensures |name| <= |path| && path[|path| - |name|..] == name
    ensures |name| < |path| ==> path[|path| - |name| - 1] == '/'
  {
    if path == [] then []
    else if path[|path| - 1] == '/' then []
    else BaseName(path[..|path| - 1]) + [path[|path| - 1]]
  }

  /** A path without a directory part is its own base name. */
  lemma {:induction false} BaseNameOfPlainName(path: string)
    requires '/' !in path
    ensures BaseName(path) == path
  {
  }
}
