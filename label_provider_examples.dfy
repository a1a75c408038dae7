/**
 * The label provider on the entries of the history-label test suite. The
 * start time is any display string `date` with no space at either end and
 * no double space, as a formatted date is.
 */
module LabelProviderExamples {
  import opened Wrappers
  import opened Decimal
  import opened Whitespace
  import opened HistoryItems
  import opened PlaceholderResolver
  import opened TemplateEngine
  import opened LabelProvider

  const InitialFormat: string := "xxx %q xxx"
  const AllDirectives: string := "%t %q %d %s %f %r %%"
  const AllDirectiveWords: seq<string> := ["%t", "%q", "%d", "%s", "%f", "%r", "%%"]
  const AllDirectiveList: seq<Directive> := [StartTime, QueryName, Target, Status, QueryFile, Results, Percent]

  predicate PlainDate(date: string) {
    date != [] && PlainWord(date)
  }

  /** The local entry of the tests. */
  function LocalEntry(userLabel: Option<string>, date: string): HistoryEntry {
    Local(userLabel, date, "query-name", "query-file.ql", "db-name", "in progress", 456)
  }

  /** The remote entry of the tests. */
  function RemoteEntry(userLabel: Option<string>, date: string, resultCount: nat, repositoryCount: nat): HistoryEntry {
    Remote(userLabel, date, "query-name", "javascript", "query-file.ql", "github", "vscode-codeql-integration-tests",
           repositoryCount, "in progress", resultCount)
  }

  /** The values of a list of directives, given one by one. */
  lemma {:induction false} ValuesAre(e: HistoryEntry, ds: seq<Directive>, ws: seq<string>)
    requires |ds| == |ws|
    requires forall i :: 0 <= i < |ds| ==> TokenValue(e, Placeholder(ds[i])) == ws[i]
    ensures DirectiveValues(e, ds) == ws
  {
  }

  /** Directives separated by single spaces render as their plain values separated by single spaces. */
  lemma {:induction false} RenderDirectiveWords(e: HistoryEntry, ds: seq<Directive>)
    requires |ds| > 0
    requires forall i :: 0 <= i < |ds| ==> PlainWord(DirectiveValues(e, ds)[i]) && DirectiveValues(e, ds)[i] != []
    ensures Render(e, Words(DirectiveTexts(ds))) == Words(DirectiveValues(e, ds))
  {
    SubstituteDirectives(e, ds);
    forall i | 0 <= i < |DirectiveTexts(ds)|
      ensures Substitute(e, DirectiveTexts(ds)[i]) == DirectiveValues(e, ds)[i]
    {
      assert SubstituteEach(e, DirectiveTexts(ds))[i] == Substitute(e, DirectiveTexts(ds)[i]);
    }
    RenderPlainWords(e, DirectiveTexts(ds));
  }

  /** The template with every directive is the directives' texts separated by single spaces. */
  lemma {:induction false} AllDirectivesAsWords()
    ensures Words(DirectiveTexts(AllDirectiveList)) == AllDirectives
  {
    assert DirectiveTexts(AllDirectiveList) == AllDirectiveWords;
    AllDirectiveWordsJoined();
  }

  lemma {:induction false} AllDirectiveWordsJoined()
    ensures Words(AllDirectiveWords) == AllDirectives
  {
    assert AllDirectiveWords == ["%t", "%q", "%d"] + ["%s", "%f", "%r", "%%"];
    WordsAppend(["%t", "%q", "%d"], ["%s", "%f", "%r", "%%"]);
    assert Words(["%t", "%q", "%d"]) == "%t %q %d";
    assert Words(["%s", "%f", "%r", "%%"]) == "%s %f %r %%";
    AllDirectivesHalves();
  }

  lemma {:induction false} AllDirectivesHalves()
    ensures "%t %q %d" + " " + "%s %f %r %%" == AllDirectives
  {
  }

  /** The values of every directive for the local entry. */
  function LocalWords(date: string): seq<string> {
    [date, "query-name", "db-name", "in progress", "query-file.ql", "(456 results)", "%"]
  }

  /** The label the local entry gets from the template with every directive. */
  function LocalLabel(date: string): string {
    Words(LocalWords(date))
  }

  lemma {:induction false} LocalValues(userLabel: Option<string>, date: string)
    ensures DirectiveValues(LocalEntry(userLabel, date), AllDirectiveList) == LocalWords(date)
  {
    var e := LocalEntry(userLabel, date);
    var ws := LocalWords(date);
    forall i | 0 <= i < 7
      ensures TokenValue(e, Placeholder(AllDirectiveList[i])) == ws[i]
    {
      if i == 5 {
        assert Resolve(e, Results) == Some(ResultsText(456));
        LocalResultsText();
      }
    }
    ValuesAre(e, AllDirectiveList, ws);
  }

  lemma {:induction false} LocalResultsText()
    ensures ResultsText(456) == "(456 results)"
  {
    assert NatToString(456) == "456";
  }

  lemma {:induction false} LocalWordsPlain(date: string)
    requires PlainDate(date)
    ensures forall i :: 0 <= i < 7 ==> PlainWord(LocalWords(date)[i]) && LocalWords(date)[i] != []
  {
    var ws := LocalWords(date);
    forall i | 0 <= i < 7
      ensures PlainWord(ws[i]) && ws[i] != []
    {
      if i == 1 {
        SpacelessIsPlain("query-name");
      } else if i == 2 {
        SpacelessIsPlain("db-name");
      } else if i == 3 {
        InProgressIsPlain();
      } else if i == 4 {
        SpacelessIsPlain("query-file.ql");
      } else if i == 5 {
        ResultsArePlain();
      } else if i == 6 {
        SpacelessIsPlain("%");
      }
    }
  }

  lemma {:induction false} InProgressIsPlain()
    ensures PlainWord("in progress")
  {
    assert "in progress" == "in" + " " + "progress";
    TwoWordsArePlain("in", "progress");
  }

  lemma {:induction false} ResultsArePlain()
    ensures PlainWord("(456 results)")
  {
    assert "(456 results)" == "(456" + " " + "results)";
    TwoWordsArePlain("(456", "results)");
  }

  /** The local entry renders the template with every directive as the test expects. */
  lemma {:induction false} LocalAllDirectives(userLabel: Option<string>, date: string)
    requires PlainDate(date)
    ensures Render(LocalEntry(userLabel, date), AllDirectives) == LocalLabel(date)
  {
    LocalValues(userLabel, date);
    LocalWordsPlain(date);
    AllDirectivesAsWords();
    RenderDirectiveWords(LocalEntry(userLabel, date), AllDirectiveList);
  }

  /** A user label of the local entry is rendered in place of the configured format. */
  lemma {:induction false} LocalUserLabel(date: string)
    requires PlainDate(date)
    ensures GetLabel(LocalEntry(Some("xxx"), date), InitialFormat) == "xxx"
    ensures GetLabel(LocalEntry(Some(AllDirectives), date), InitialFormat) == LocalLabel(date)
    ensures GetLabel(LocalEntry(Some(AllDirectives + Delimiter + AllDirectives), date), InitialFormat)
         == LocalLabel(date) + Delimiter + LocalLabel(date)
  {
    PlainUserLabelVerbatim(LocalEntry(Some("xxx"), date), InitialFormat);
    LocalAllDirectives(Some(AllDirectives), date);
    var e := LocalEntry(Some(AllDirectives + Delimiter + AllDirectives), date);
    LocalAllDirectives(Some(AllDirectives + Delimiter + AllDirectives), date);
    SegmentIndependence(e, AllDirectives, AllDirectives);
  }

  /** The initial format renders the query name between two "xxx" words. */
  lemma {:induction false} InitialFormatRenders(e: HistoryEntry)
    requires PlainWord(TokenValue(e, Placeholder(QueryName))) && TokenValue(e, Placeholder(QueryName)) != []
    ensures Render(e, InitialFormat) == Words(["xxx", TokenValue(e, Placeholder(QueryName)), "xxx"])
  {
    var q := TokenValue(e, Placeholder(QueryName));
    var ws := ["xxx", DirectiveText(QueryName), "xxx"];
    assert Words(ws) == InitialFormat;
    assert SubstituteEach(e, ws) == ["xxx", q, "xxx"] by {
      XxxIsPlain(e);
      SubstituteDirectiveAlone(e, QueryName);
    }
    assert forall i :: 0 <= i < |ws| ==> PlainWord(Substitute(e, ws[i])) && Substitute(e, ws[i]) != [] by {
      XxxIsPlain(e);
      SubstituteDirectiveAlone(e, QueryName);
    }
    RenderPlainWords(e, ws);
  }

  lemma {:induction false} XxxIsPlain(e: HistoryEntry)
    ensures Substitute(e, "xxx") == "xxx" && PlainWord("xxx")
  {
    SubstituteWithoutDirective(e, "xxx");
    SpacelessIsPlain("xxx");
  }

  /** Without a user label the local entry renders the configured format. */
  lemma {:induction false} LocalConfiguredFormat(date: string)
    requires PlainDate(date)
    ensures GetLabel(LocalEntry(None, date), InitialFormat) == "xxx query-name xxx"
    ensures GetLabel(LocalEntry(None, date), AllDirectives) == LocalLabel(date)
    ensures GetLabel(LocalEntry(None, date), AllDirectives + Delimiter + AllDirectives)
         == LocalLabel(date) + Delimiter + LocalLabel(date)
  {
    var e := LocalEntry(None, date);
    assert Render(e, InitialFormat) == "xxx query-name xxx" by {
      SpacelessIsPlain("query-name");
      InitialFormatRenders(e);
      LocalInitialLabel();
    }
    LocalAllDirectives(None, date);
    SegmentIndependence(e, AllDirectives, AllDirectives);
  }

  lemma {:induction false} LocalInitialLabel()
    ensures Words(["xxx", "query-name", "xxx"]) == "xxx query-name xxx"
  {
  }

  /** The short label of the local entry is its user label, else its query name. */
  lemma {:induction false} LocalShortLabel(date: string)
    ensures GetShortLabel(LocalEntry(Some("xxx"), date)) == "xxx"
    ensures GetShortLabel(LocalEntry(None, date)) == "query-name"
  {
  }

  // ---------------------------------------------------------------------
  // The remote entry

  const ShortDirectives: string := "%t %q %d %s %%"
  const ShortDirectiveList: seq<Directive> := [StartTime, QueryName, Target, Status, Percent]
  const ControllerRepository: string := "github/vscode-codeql-integration-tests"
  const RemoteQueryName: string := "query-name (javascript)"

  lemma {:induction false} ShortDirectivesAsWords()
    ensures Words(DirectiveTexts(ShortDirectiveList)) == ShortDirectives
  {
    assert DirectiveTexts(ShortDirectiveList) == ["%t", "%q", "%d", "%s", "%%"];
    assert Words(["%t", "%q", "%d", "%s", "%%"]) == ShortDirectives;
  }

  /** The query name of the remote entry carries its language; its query file is a plain name. */
  lemma {:induction false} RemoteFixedValues(userLabel: Option<string>, date: string, resultCount: nat, repositoryCount: nat)
    ensures TokenValue(RemoteEntry(userLabel, date, resultCount, repositoryCount), Placeholder(QueryName))
         == RemoteQueryName
    ensures TokenValue(RemoteEntry(userLabel, date, resultCount, repositoryCount), Placeholder(QueryFile))
         == "query-file.ql"
  {
    BaseNameOfPlainName("query-file.ql");
  }

  /** Without a repository count the remote entry names its controller repository. */
  lemma {:induction false} ControllerTarget(userLabel: Option<string>, date: string, resultCount: nat)
    ensures TokenValue(RemoteEntry(userLabel, date, resultCount, 0), Placeholder(Target)) == ControllerRepository
  {
    var e := RemoteEntry(userLabel, date, resultCount, 0);
    assert Resolve(e, Target) == Some(RemoteTarget(0, "github", "vscode-codeql-integration-tests"));
    ControllerRepositoryParts();
  }

  lemma {:induction false} ControllerRepositoryParts()
    ensures RemoteTarget(0, "github", "vscode-codeql-integration-tests") == ControllerRepository
  {
  }

  /** With two repositories the remote entry names their number. */
  lemma {:induction false} TwoRepositoriesTarget(userLabel: Option<string>, date: string, resultCount: nat)
    ensures TokenValue(RemoteEntry(userLabel, date, resultCount, 2), Placeholder(Target)) == TwoRepositories
  {
    var e := RemoteEntry(userLabel, date, resultCount, 2);
    assert Resolve(e, Target) == Some(RemoteTarget(2, "github", "vscode-codeql-integration-tests"));
    TwoRepositoriesText();
  }

  lemma {:induction false} TwoRepositoriesText()
    ensures RemoteTarget(2, "github", "vscode-codeql-integration-tests") == TwoRepositories
  {
    assert NatToString(2) == "2";
  }

  lemma {:induction false} SixteenResults(userLabel: Option<string>, date: string, repositoryCount: nat)
    ensures TokenValue(RemoteEntry(userLabel, date, 16, repositoryCount), Placeholder(Results)) == "(16 results)"
  {
    var e := RemoteEntry(userLabel, date, 16, repositoryCount);
    assert Resolve(e, Results) == Some(ResultsText(16));
    SixteenResultsText();
  }

  lemma {:induction false} SixteenResultsText()
    ensures ResultsText(16) == "(16 results)"
  {
    assert NatToString(16) == "16";
  }

  lemma {:induction false} QueryNameIsPlain()
    ensures PlainWord(RemoteQueryName)
  {
    assert RemoteQueryName == "query-name" + " " + "(javascript)";
    TwoWordsArePlain("query-name", "(javascript)");
  }

  lemma {:induction false} ControllerRepositoryIsPlain()
    ensures PlainWord(ControllerRepository)
  {
    SpacelessIsPlain(ControllerRepository);
  }

  lemma {:induction false} TwoRepositoriesArePlain()
    ensures PlainWord(TwoRepositories)
  {
    assert TwoRepositories == "2" + " " + "repositories";
    TwoWordsArePlain("2", "repositories");
  }

  lemma {:induction false} SixteenResultsArePlain()
    ensures PlainWord("(16 results)")
  {
    assert "(16 results)" == "(16" + " " + "results)";
    TwoWordsArePlain("(16", "results)");
  }

  /** The values of `%t %q %d %s %%` for the remote entry with its controller repository. */
  function RemoteShortWords(date: string, query: string, target: string): seq<string> {
    [date, query, target, "in progress", "%"]
  }

  lemma {:induction false} RemoteShortValues(userLabel: Option<string>, date: string)
    ensures DirectiveValues(RemoteEntry(userLabel, date, 16, 0), ShortDirectiveList) == RemoteShortWords(date, RemoteQueryName, ControllerRepository)
  {
    var e := RemoteEntry(userLabel, date, 16, 0);
    var ws := RemoteShortWords(date, RemoteQueryName, ControllerRepository);
    forall i | 0 <= i < 5
      ensures TokenValue(e, Placeholder(ShortDirectiveList[i])) == ws[i]
    {
      if i == 1 {
        RemoteFixedValues(userLabel, date, 16, 0);
      } else if i == 2 {
        ControllerTarget(userLabel, date, 16);
      }
    }
    ValuesAre(e, ShortDirectiveList, ws);
  }

  lemma {:induction false} RemoteShortWordsPlain(date: string, query: string, target: string)
    requires PlainDate(date) && PlainWord(query) && query != [] && PlainWord(target) && target != []
    ensures forall i :: 0 <= i < 5 ==> PlainWord(RemoteShortWords(date, query, target)[i]) && RemoteShortWords(date, query, target)[i] != []
  {
    var ws := RemoteShortWords(date, query, target);
    forall i | 0 <= i < 5
      ensures PlainWord(ws[i]) && ws[i] != []
    {
      if i == 3 {
        InProgressIsPlain();
      } else if i == 4 {
        SpacelessIsPlain("%");
      }
    }
  }

  /** The remote entry renders `%t %q %d %s %%` as the test expects. */
  lemma {:induction false} RemoteShortDirectives(userLabel: Option<string>, date: string)
    requires PlainDate(date)
    ensures Render(RemoteEntry(userLabel, date, 16, 0), ShortDirectives) == Words(RemoteShortWords(date, RemoteQueryName, ControllerRepository))
  {
    RemoteShortValues(userLabel, date);
    ControllerRepositoryIsPlain();
    QueryNameIsPlain();
    RemoteShortWordsPlain(date, RemoteQueryName, ControllerRepository);
    ShortDirectivesAsWords();
    RenderDirectiveWords(RemoteEntry(userLabel, date, 16, 0), ShortDirectiveList);
  }

  /** A user label of the remote entry is rendered in place of the configured format. */
  lemma {:induction false} RemoteUserLabel(date: string)
    requires PlainDate(date)
    ensures GetLabel(RemoteEntry(Some("xxx"), date, 16, 0), InitialFormat) == "xxx"
    ensures GetLabel(RemoteEntry(Some(ShortDirectives), date, 16, 0), InitialFormat) == Words(RemoteShortWords(date, RemoteQueryName, ControllerRepository))
    ensures GetLabel(RemoteEntry(Some(ShortDirectives + Delimiter + ShortDirectives), date, 16, 0), InitialFormat)
         == Words(RemoteShortWords(date, RemoteQueryName, ControllerRepository)) + Delimiter + Words(RemoteShortWords(date, RemoteQueryName, ControllerRepository))
  {
    PlainUserLabelVerbatim(RemoteEntry(Some("xxx"), date, 16, 0), InitialFormat);
    RemoteShortDirectives(Some(ShortDirectives), date);
    var e := RemoteEntry(Some(ShortDirectives + Delimiter + ShortDirectives), date, 16, 0);
    RemoteShortDirectives(Some(ShortDirectives + Delimiter + ShortDirectives), date);
    SegmentIndependence(e, ShortDirectives, ShortDirectives);
  }

  /** The values of every directive for the remote entry with 16 results. */
  function RemoteWords(date: string, query: string, target: string): seq<string> {
    [date, query, target, "in progress", "query-file.ql", "(16 results)", "%"]
  }

  lemma {:induction false} RemoteAllValues(userLabel: Option<string>, date: string, repositoryCount: nat, target: string)
    requires TokenValue(RemoteEntry(userLabel, date, 16, repositoryCount), Placeholder(Target)) == target
    ensures DirectiveValues(RemoteEntry(userLabel, date, 16, repositoryCount), AllDirectiveList)
         == RemoteWords(date, RemoteQueryName, target)
  {
    var e := RemoteEntry(userLabel, date, 16, repositoryCount);
    var ws := RemoteWords(date, RemoteQueryName, target);
    forall i | 0 <= i < 7
      ensures TokenValue(e, Placeholder(AllDirectiveList[i])) == ws[i]
    {
      if i == 1 || i == 4 {
        RemoteFixedValues(userLabel, date, 16, repositoryCount);
      } else if i == 5 {
        SixteenResults(userLabel, date, repositoryCount);
      }
    }
    ValuesAre(e, AllDirectiveList, ws);
  }

  lemma {:induction false} RemoteWordsPlain(date: string, query: string, target: string)
    requires PlainDate(date) && PlainWord(query) && query != [] && PlainWord(target) && target != []
    ensures forall i :: 0 <= i < 7 ==> PlainWord(RemoteWords(date, query, target)[i]) && RemoteWords(date, query, target)[i] != []
  {
    var ws := RemoteWords(date, query, target);
    assert ws == [date, query, target] + RemoteTail;
    RemoteTailPlain();
  }

  const RemoteTail: seq<string> := ["in progress", "query-file.ql", "(16 results)", "%"]

  lemma {:induction false} RemoteTailPlain()
    ensures forall i :: 0 <= i < 4 ==> PlainWord(RemoteTail[i]) && RemoteTail[i] != []
  {
    forall i | 0 <= i < 4
      ensures PlainWord(RemoteTail[i]) && RemoteTail[i] != []
    {
      if i == 0 {
        InProgressIsPlain();
      } else if i == 1 {
        SpacelessIsPlain("query-file.ql");
      } else if i == 2 {
        SixteenResultsArePlain();
      } else {
        SpacelessIsPlain("%");
      }
    }
  }

  /** The remote entry with 16 results renders the template with every directive as the test expects. */
  lemma {:induction false} RemoteAllDirectives(userLabel: Option<string>, date: string, repositoryCount: nat, target: string)
    requires PlainDate(date) && PlainWord(target) && target != []
    requires TokenValue(RemoteEntry(userLabel, date, 16, repositoryCount), Placeholder(Target)) == target
    ensures Render(RemoteEntry(userLabel, date, 16, repositoryCount), AllDirectives)
         == Words(RemoteWords(date, RemoteQueryName, target))
  {
    RemoteAllValues(userLabel, date, repositoryCount, target);
    QueryNameIsPlain();
    RemoteWordsPlain(date, RemoteQueryName, target);
    AllDirectivesAsWords();
    RenderDirectiveWords(RemoteEntry(userLabel, date, 16, repositoryCount), AllDirectiveList);
  }

  /** Without a user label the remote entry renders the configured format. */
  lemma {:induction false} RemoteConfiguredFormat(date: string)
    requires PlainDate(date)
    ensures GetLabel(RemoteEntry(None, date, 16, 0), InitialFormat) == Words(["xxx", RemoteQueryName, "xxx"])
    ensures GetLabel(RemoteEntry(None, date, 16, 0), AllDirectives)
         == Words(RemoteWords(date, RemoteQueryName, ControllerRepository))
    ensures GetLabel(RemoteEntry(None, date, 16, 0), AllDirectives + Delimiter + AllDirectives)
         == Words(RemoteWords(date, RemoteQueryName, ControllerRepository)) + Delimiter
          + Words(RemoteWords(date, RemoteQueryName, ControllerRepository))
  {
    var e := RemoteEntry(None, date, 16, 0);
    RemoteFixedValues(None, date, 16, 0);
    QueryNameIsPlain();
    InitialFormatRenders(e);
    ControllerTarget(None, date, 16);
    ControllerRepositoryIsPlain();
    RemoteAllDirectives(None, date, 0, ControllerRepository);
    SegmentIndependence(e, AllDirectives, AllDirectives);
  }

  const TwoRepositories: string := "2 repositories"

  /** With a repository count the remote entry names the number of repositories, not its controller repository. */
  lemma {:induction false} RemoteRepositoryCount(date: string)
    requires PlainDate(date)
    ensures GetLabel(RemoteEntry(None, date, 16, 2), AllDirectives)
         == Words(RemoteWords(date, RemoteQueryName, TwoRepositories))
  {
    TwoRepositoriesTarget(None, date, 16);
    TwoRepositoriesArePlain();
    RemoteAllDirectives(None, date, 2, TwoRepositories);
  }

  /** The short label of the remote entry is its user label, else its query name without the language. */
  lemma {:induction false} RemoteShortLabel(date: string)
    ensures GetShortLabel(RemoteEntry(Some("xxx"), date, 16, 0)) == "xxx"
    ensures GetShortLabel(RemoteEntry(None, date, 16, 0)) == "query-name"
  {
  }

  // ---------------------------------------------------------------------
  // The remote entry without results

  const NoResultsDirectives: string := "%t %q %d %s %f %%"
  const NoResultsDirectiveList: seq<Directive> := [StartTime, QueryName, Target, Status, QueryFile, Percent]

  /** The values of `%t %q %d %s %f %%` for the remote entry over two repositories. */
  function NoResultsWords(date: string, query: string, target: string): seq<string> {
    [date, query, target, "in progress", "query-file.ql", "%"]
  }

  lemma {:induction false} NoResultsDirectivesAsWords()
    ensures Words(DirectiveTexts(NoResultsDirectiveList)) == NoResultsDirectives
  {
    NoResultsDirectiveTexts();
    NoResultsDirectiveWords();
  }

  lemma {:induction false} NoResultsDirectiveTexts()
    ensures DirectiveTexts(NoResultsDirectiveList) == ["%t", "%q", "%d", "%s", "%f", "%%"]
  {
  }

  lemma {:induction false} NoResultsDirectiveWords()
    ensures Words(["%t", "%q", "%d", "%s", "%f", "%%"]) == NoResultsDirectives
  {
  }

  /** The template with every directive is the one without results with ` %r` inserted before `%%`. */
  lemma {:induction false} AllDirectivesAroundResults()
    ensures AllDirectives == "%t %q %d %s %f" + " %r " + "%%"
    ensures NoResultsDirectives == "%t %q %d %s %f" + " " + "%%"
  {
  }

  lemma {:induction false} NoResultsWordsPlain(date: string, query: string, target: string)
    requires PlainDate(date) && PlainWord(query) && query != [] && PlainWord(target) && target != []
    ensures forall i :: 0 <= i < 6 ==> PlainWord(NoResultsWords(date, query, target)[i]) && NoResultsWords(date, query, target)[i] != []
  {
    InProgressIsPlain();
    SpacelessIsPlain("query-file.ql");
    SpacelessIsPlain("%");
  }

  /**
   * Substituting the template without `%r` for the remote entry without
   * results gives its plain values separated by single spaces.
   */
  lemma {:induction false} NoResultsSubstitute(userLabel: Option<string>, date: string)
    requires PlainDate(date)
    ensures Substitute(RemoteEntry(userLabel, date, 0, 2), NoResultsDirectives)
         == Words(NoResultsWords(date, RemoteQueryName, TwoRepositories))
    ensures PlainWord(Words(NoResultsWords(date, RemoteQueryName, TwoRepositories)))
    ensures Words(NoResultsWords(date, RemoteQueryName, TwoRepositories)) != []
  {
    var e := RemoteEntry(userLabel, date, 0, 2);
    var ws := NoResultsWords(date, RemoteQueryName, TwoRepositories);
    var texts := DirectiveTexts(NoResultsDirectiveList);
    assert SubstituteEach(e, texts) == ws by {
      NoResultsValues(userLabel, date);
      SubstituteDirectives(e, NoResultsDirectiveList);
    }
    assert Substitute(e, NoResultsDirectives) == Words(SubstituteEach(e, texts)) by {
      NoResultsDirectivesAsWords();
      SubstituteWords(e, texts);
    }
    NoResultsLabelPlain(date);
  }

  lemma {:induction false} NoResultsValues(userLabel: Option<string>, date: string)
    ensures DirectiveValues(RemoteEntry(userLabel, date, 0, 2), NoResultsDirectiveList)
         == NoResultsWords(date, RemoteQueryName, TwoRepositories)
  {
    var e := RemoteEntry(userLabel, date, 0, 2);
    var ws := NoResultsWords(date, RemoteQueryName, TwoRepositories);
    forall i | 0 <= i < 6
      ensures TokenValue(e, Placeholder(NoResultsDirectiveList[i])) == ws[i]
    {
      if i == 1 || i == 4 {
        RemoteFixedValues(userLabel, date, 0, 2);
      } else if i == 2 {
        TwoRepositoriesTarget(userLabel, date, 0);
      }
    }
    ValuesAre(e, NoResultsDirectiveList, ws);
  }

  lemma {:induction false} NoResultsLabelPlain(date: string)
    requires PlainDate(date)
    ensures PlainWord(Words(NoResultsWords(date, RemoteQueryName, TwoRepositories)))
    ensures Words(NoResultsWords(date, RemoteQueryName, TwoRepositories)) != []
  {
    QueryNameIsPlain();
    TwoRepositoriesArePlain();
    NoResultsWordsPlain(date, RemoteQueryName, TwoRepositories);
    WordsArePlain(NoResultsWords(date, RemoteQueryName, TwoRepositories));
  }

  /** Without results, the template with every directive renders as the one without `%r`. */
  lemma {:induction false} NoResultsRender(userLabel: Option<string>, date: string)
    requires PlainDate(date)
    ensures Render(RemoteEntry(userLabel, date, 0, 2), AllDirectives)
         == Words(NoResultsWords(date, RemoteQueryName, TwoRepositories))
  {
    var e := RemoteEntry(userLabel, date, 0, 2);
    AllDirectivesAroundResults();
    ResultsOmittedWithoutResults(e, "%t %q %d %s %f", "%%");
    RenderInOnePass(e, NoResultsDirectives);
    NoResultsSubstitute(userLabel, date);
    CollapseFixesNormal(Words(NoResultsWords(date, RemoteQueryName, TwoRepositories)));
  }

  /** Results are left out of the label of an entry without results. */
  lemma {:induction false} RemoteWithoutResults(date: string)
    requires PlainDate(date)
    ensures GetLabel(RemoteEntry(None, date, 0, 2), AllDirectives)
         == Words(NoResultsWords(date, RemoteQueryName, TwoRepositories))
  {
    NoResultsRender(None, date);
  }

  /** The format of the whitespace test: the directives separated by runs of 3, 8, 1, 3, 3 and 1 spaces. */
  lemma {:induction false} IrregularFormat()
    ensures Spaced(["%t", "%q", "%d", "%s", "%f", "%r", "%%"], [3, 8, 1, 3, 3, 1]) == "%t   %q        %d %s   %f   %r %%"
  {
    var rest := "%q        %d %s   %f   %r %%";
    assert Spaced(["%t", "%q", "%d", "%s", "%f", "%r", "%%"], [3, 8, 1, 3, 3, 1]) == "%t" + "   " + rest by {
      IrregularRest();
      SpacedCons("%t", ["%q", "%d", "%s", "%f", "%r", "%%"], 3, [8, 1, 3, 3, 1]);
      assert Spaces(3) == "   ";
    }
    IrregularFormatSplit();
  }

  lemma {:induction false} IrregularFormatSplit()
    ensures "%t" + "   " + "%q        %d %s   %f   %r %%" == "%t   %q        %d %s   %f   %r %%"
  {
  }

  lemma {:induction false} IrregularRest()
    ensures Spaced(["%q", "%d", "%s", "%f", "%r", "%%"], [8, 1, 3, 3, 1]) == "%q        %d %s   %f   %r %%"
  {
    var rest := "%d %s   %f   %r %%";
    assert Spaced(["%q", "%d", "%s", "%f", "%r", "%%"], [8, 1, 3, 3, 1]) == "%q" + "        " + rest by {
      IrregularMiddle();
      SpacedCons("%q", ["%d", "%s", "%f", "%r", "%%"], 8, [1, 3, 3, 1]);
      assert Spaces(8) == "        ";
    }
    IrregularRestSplit();
  }

  lemma {:induction false} IrregularRestSplit()
    ensures "%q" + "        " + "%d %s   %f   %r %%" == "%q        %d %s   %f   %r %%"
  {
  }

  lemma {:induction false} IrregularMiddle()
    ensures Spaced(["%d", "%s", "%f", "%r", "%%"], [1, 3, 3, 1]) == "%d %s   %f   %r %%"
  {
    IrregularTail();
    SpacedCons("%d", ["%s", "%f", "%r", "%%"], 1, [3, 3, 1]);
    assert Spaces(1) == " ";
  }

  lemma {:induction false} IrregularTail()
    ensures Spaced(["%s", "%f", "%r", "%%"], [3, 3, 1]) == "%s   %f   %r %%"
  {
    assert Spaces(1) == " " && Spaces(3) == "   ";
    SpacedCons("%r", ["%%"], 1, []);
    SpacedCons("%f", ["%r", "%%"], 3, [1]);
    SpacedCons("%s", ["%f", "%r", "%%"], 3, [3, 1]);
  }

  /** Runs of spaces between the directives are squashed to single spaces, whatever their lengths. */
  lemma {:induction false} RemoteInnerSpacing(date: string, gaps: seq<nat>)
    requires PlainDate(date)
    requires |gaps| == 6 && forall i :: 0 <= i < 6 ==> gaps[i] >= 1
    ensures GetLabel(RemoteEntry(None, date, 0, 2), Spaced(AllDirectiveWords, gaps))
         == Words(NoResultsWords(date, RemoteQueryName, TwoRepositories))
  {
    var e := RemoteEntry(None, date, 0, 2);
    CollapseSpaced(AllDirectiveWords, gaps);
    AllDirectiveWordsJoined();
    SpacingInsensitive(e, Spaced(AllDirectiveWords, gaps), AllDirectives);
    NoResultsRender(None, date);
  }

  /** A leading run of spaces becomes a single leading space. */
  lemma {:induction false} RemoteLeadingSpaces(date: string, n: nat)
    requires PlainDate(date) && n >= 1
    ensures GetLabel(RemoteEntry(None, date, 0, 2), Spaces(n) + AllDirectives)
         == " " + Words(NoResultsWords(date, RemoteQueryName, TwoRepositories))
  {
    var e := RemoteEntry(None, date, 0, 2);
    assert Render(e, Spaces(n) + AllDirectives) == Render(e, Spaces(n) + NoResultsDirectives) by {
      AllDirectivesAroundResults();
      assert Spaces(n) + AllDirectives == (Spaces(n) + "%t %q %d %s %f") + " %r " + "%%";
      ResultsOmittedWithoutResults(e, Spaces(n) + "%t %q %d %s %f", "%%");
      assert (Spaces(n) + "%t %q %d %s %f") + " " + "%%" == Spaces(n) + NoResultsDirectives;
    }
    RenderLeadingSpaces(e, n, NoResultsDirectives);
    NoResultsSubstitute(None, date);
    SpaceBeforePlainWord(Words(NoResultsWords(date, RemoteQueryName, TwoRepositories)));
  }

  /** A trailing run of spaces becomes a single trailing space. */
  lemma {:induction false} RemoteTrailingSpaces(date: string, n: nat)
    requires PlainDate(date) && n >= 1
    ensures GetLabel(RemoteEntry(None, date, 0, 2), AllDirectives + Spaces(n))
         == Words(NoResultsWords(date, RemoteQueryName, TwoRepositories)) + " "
  {
    var e := RemoteEntry(None, date, 0, 2);
    assert Render(e, AllDirectives + Spaces(n)) == Render(e, NoResultsDirectives + Spaces(n)) by {
      AllDirectivesAroundResults();
      assert AllDirectives + Spaces(n) == "%t %q %d %s %f" + " %r " + ("%%" + Spaces(n));
      ResultsOmittedWithoutResults(e, "%t %q %d %s %f", "%%" + Spaces(n));
      assert "%t %q %d %s %f" + " " + ("%%" + Spaces(n)) == NoResultsDirectives + Spaces(n);
    }
    RenderTrailingSpaces(e, n, NoResultsDirectives);
    NoResultsSubstitute(None, date);
    SpaceAfterPlainWord(Words(NoResultsWords(date, RemoteQueryName, TwoRepositories)));
  }

  /** The inner-whitespace test, with its format as written there. */
  lemma {:induction false} RemoteInnerSpacingExample(date: string)
    requires PlainDate(date)
    ensures GetLabel(RemoteEntry(None, date, 0, 2), "%t   %q        %d %s   %f   %r %%")
         == Words(NoResultsWords(date, RemoteQueryName, TwoRepositories))
  {
    var gaps: seq<nat> := [3, 8, 1, 3, 3, 1];
    calc {
      GetLabel(RemoteEntry(None, date, 0, 2), "%t   %q        %d %s   %f   %r %%");
      == { IrregularFormat(); }
      GetLabel(RemoteEntry(None, date, 0, 2), Spaced(AllDirectiveWords, gaps));
      == { RemoteInnerSpacing(date, gaps); }
      Words(NoResultsWords(date, RemoteQueryName, TwoRepositories));
    }
  }

  /** The leading-whitespace test, with its format as written there. */
  lemma {:induction false} RemoteLeadingSpacesExample(date: string)
    requires PlainDate(date)
    ensures GetLabel(RemoteEntry(None, date, 0, 2), "   %t %q %d %s %f %r %%")
         == " " + Words(NoResultsWords(date, RemoteQueryName, TwoRepositories))
  {
    assert Spaces(3) + AllDirectives == "   %t %q %d %s %f %r %%" by {
      assert Spaces(3) == "   ";
    }
    RemoteLeadingSpaces(date, 3);
  }

  /** The trailing-whitespace test, with its format as written there. */
  lemma {:induction false} RemoteTrailingSpacesExample(date: string)
    requires PlainDate(date)
    ensures GetLabel(RemoteEntry(None, date, 0, 2), "%t %q %d %s %f %r %%   ")
         == Words(NoResultsWords(date, RemoteQueryName, TwoRepositories)) + " "
  {
    assert AllDirectives + Spaces(3) == "%t %q %d %s %f %r %%   " by {
      assert Spaces(3) == "   ";
    }
    RemoteTrailingSpaces(date, 3);
  }
}
