/**
 * The placeholder resolver: the text each format directive stands for, for
 * each kind of history entry.
 */
module PlaceholderResolver {
  import opened Wrappers
  import opened Decimal
  import opened HistoryItems

  /** The directives `%t %q %d %s %f %r %%`. */
  datatype Directive = StartTime | QueryName | Target | Status | QueryFile | Results | Percent

  /** The character that follows '%' to name the directive. */
  function DirectiveChar(d: Directive): char {
    match d
    case StartTime => 't'
    case QueryName => 'q'
    case Target => 'd'
    case Status => 's'
    case QueryFile => 'f'
    case Results => 'r'
    case Percent => '%'
  }

  /** Reads the character after a '%': a directive, or None for any other character. */
  function ParseDirective(c: char): (d: Option<Directive>)
    ensures forall x :: d == Some(x) <==> DirectiveChar(x) == c
  {
    match c
    case 't' => Some(StartTime)
    case 'q' => Some(QueryName)
    case 'd' => Some(Target)
    case 's' => Some(Status)
    case 'f' => Some(QueryFile)
    case 'r' => Some(Results)
    case '%' => Some(Percent)
    case _ => None
  }

  /** "(N results)". */
  function ResultsText(n: nat): string {
    "(" + NatToString(n) + " results)"
  }

  /** The target of a remote run: "N repositories", or the controller repository when N is 0. */
  function RemoteTarget(repositoryCount: nat, owner: string, name: string): string {
    if repositoryCount > 0 then NatToString(repositoryCount) + " repositories" else owner + "/" + name
  }

  /**
   * The text a directive stands for in an entry, or None when it is to be
   * dropped: only the results directive of an entry with no results is
   * dropped; `%%` is a literal percent sign for every entry.
   */
  function Resolve(e: HistoryEntry, d: Directive): (r: Option<string>)
    ensures r.None? <==> d == Results && e.resultCount == 0
    ensures d == Percent ==> r == Some("%")
    ensures d == Status ==> r == Some(e.status)
    ensures d == Results && e.resultCount > 0 ==> r == Some(ResultsText(e.resultCount))
  {
    match e
    case Local(_, startTime, queryName, queryFileName, databaseName, status, resultCount) =>
      (match d
       case StartTime => Some(startTime)
       case QueryName => Some(queryName)
       case Target => Some(databaseName)
       case Status => Some(status)
       case QueryFile => Some(queryFileName)
       case Results => if resultCount > 0 then Some(ResultsText(resultCount)) else None
       case Percent => Some("%"))
    case Remote(_, startTime, queryName, language, queryFilePath, owner, name, repositoryCount, status, resultCount) =>
      match d
      case StartTime => Some(startTime)
      case QueryName => Some(queryName + " (" + language + ")")
      case Target => Some(RemoteTarget(repositoryCount, owner, name))
      case Status => Some(status)
      case QueryFile => Some(BaseName(queryFilePath))
      case Results => if resultCount > 0 then Some(ResultsText(resultCount)) else None
      case Percent => Some("%")
  }

  /**
   * The entry fields behind `%t %q %d %f`: a local run shows its own names,
   * a remote run adds the language to its query name, names its repository
   * target, and shows only the base name of its query file path.
   */
  lemma {:induction false} ResolveFields(e: HistoryEntry)
    ensures Resolve(e, StartTime) == Some(e.startTime)
    ensures e.Local? ==> Resolve(e, QueryName) == Some(e.queryName)
    ensures e.Local? ==> Resolve(e, Target) == Some(e.databaseName)
    ensures e.Local? ==> Resolve(e, QueryFile) == Some(e.queryFileName)
    ensures e.Remote? ==> Resolve(e, QueryName) == Some(e.queryName + " (" + e.language + ")")
    ensures e.Remote? ==> Resolve(e, Target) == Some(RemoteTarget(e.repositoryCount, e.controllerOwner, e.controllerName))
    ensures e.Remote? ==> Resolve(e, QueryFile) == Some(BaseName(e.queryFilePath))
  {
  }

  /** A remote run's target names a repository count exactly when there is one. */
  lemma {:induction false} RemoteTargetCases(e: HistoryEntry)
    requires e.Remote?
    ensures e.repositoryCount > 0 ==> Resolve(e, Target) == Some(NatToString(e.repositoryCount) + " repositories")
    ensures e.repositoryCount == 0 ==> Resolve(e, Target) == Some(e.controllerOwner + "/" + e.controllerName)
  {
  }

  /** The results text names the count, which can be read back from it. */
  lemma {:induction false} ResultsTextNamesCount(n: nat)
    ensures var t := ResultsText(n);
      |t| > 9 && t[0] == '(' && t[|t| - 9..] == " results)" && AllDigits(t[1..|t| - 9]) && ParseDecimal(t[1..|t| - 9]) == n
  {
    var t := ResultsText(n);
    assert t[1..|t| - 9] == NatToString(n);
    ParseNatToString(n);
  }
}
