# Query-history label templating

This project models how the query-history view of the CodeQL extension for
VS Code renders a one-line label for a history entry
(`HistoryItemLabelProvider.getLabel` and `getShortLabel`). The inputs are
a format template and an entry, which is either a local run against one
database or a remote run against many repositories. The model has these parts:

- **Directives.** `%t %q %d %s %f %r %%` resolve per entry kind. `%r` is dropped
  when the entry has no results.
- **Substitution.** The template is scanned left to right, and each directive is
  replaced by its value.
- **Spaces.** Every run of spaces becomes a single space, including leading and
  trailing runs.
- **Segments.** The template is split on `::`. Each segment is rendered on its own,
  and the rendered segments are joined with `::` again.
- **Labels.** The full label uses the entry's own label when it has a non-empty
  one, and the configured format otherwise. The short label is the entry's own
  label or the plain query name, and it is never rendered.

The implementation file of the label provider is not part of this model. The
behaviour is pinned to the assertions of its test suite,
`extensions/ql-vscode/src/vscode-tests/no-workspace/history-item-label-provider.test.ts`,
and to the entries built there. Everything is pure: the configured format and
the entry's own label are parameters, not mutable state.

Modules, one per file:

| file | module | contents |
|---|---|---|
| `wrappers.dfy` | `Wrappers` | `Option` |
| `decimal.dfy` | `Decimal` | decimal text of a count, and its parser |
| `history_items.dfy` | `HistoryItems` | the two kinds of entry; base name of a path |
| `placeholder_resolver.dfy` | `PlaceholderResolver` | directives and their values |
| `whitespace.dfy` | `Whitespace` | space normalisation; words joined by single spaces |
| `template_engine.dfy` | `TemplateEngine` | scanning, substitution, segments, rendering |
| `label_provider.dfy` | `LabelProvider` | `GetLabel`, `GetShortLabel` |
| `label_provider_examples.dfy` | `LabelProviderExamples` | each test expectation as a lemma over any display date |

In the examples, the start time is any display string `date` with no space at
either end and no double space, as a formatted date is. An expected label such as
`D query-name db-name in progress query-file.ql (456 results) %` is written as
`Words([date, "query-name", "db-name", …])`: the words joined by single spaces.

## Model

| member | source | states |
|---|---|---|
| `PlaceholderResolver.ParseDirective` | extensions/ql-vscode/src/vscode-tests/no-workspace/history-item-label-provider.test.ts:29-30 | a character after `%` names directive `x` exactly when `x`'s letter is that character; any other character names none |
| `PlaceholderResolver.ResultsText` | extensions/ql-vscode/src/vscode-tests/no-workspace/history-item-label-provider.test.ts:30 | the `%r` text `(N results)`; `ResultsTextNamesCount` states its shape and that its digits read back as N |
| `PlaceholderResolver.RemoteTarget` | extensions/ql-vscode/src/vscode-tests/no-workspace/history-item-label-provider.test.ts:111-115 | the remote `%d` text; `RemoteTargetCases` states that it is `N repositories` for a positive count N, else `owner/name` |
| `PlaceholderResolver.Resolve` | extensions/ql-vscode/src/vscode-tests/no-workspace/history-item-label-provider.test.ts:29-30 | a directive is absent exactly when it is `%r` and the entry has no results; `%%` is `%`, `%s` the status, and `%r` is `(N results)` when N > 0; `ResolveFields` and `RemoteTargetCases` give the other directives for every entry |
| `PlaceholderResolver.ResolveFields` | extensions/ql-vscode/src/vscode-tests/no-workspace/history-item-label-provider.test.ts:101-105 | for every entry `%t` is its start time; for a local entry `%q`, `%d` and `%f` are its query name, database name and query file name; for a remote entry `%q` is `name (language)`, `%d` its repository target, and `%f` the base name of its query file path |
| `PlaceholderResolver.RemoteTargetCases` | extensions/ql-vscode/src/vscode-tests/no-workspace/history-item-label-provider.test.ts:111-115 | a remote `%d` is `N repositories` when the repository count N is positive, else `owner/name` of the controller repository |
| `PlaceholderResolver.ResultsTextNamesCount` | extensions/ql-vscode/src/vscode-tests/no-workspace/history-item-label-provider.test.ts:30 | the results text is `(`, decimal digits, ` results)`, and the digits read back as the count |
| `Decimal.NatToString` | extensions/ql-vscode/src/vscode-tests/no-workspace/history-item-label-provider.test.ts:115 | the text of a count is non-empty, all digits, and starts with `0` only for zero |
| `Decimal.ParseNatToString` | extensions/ql-vscode/src/vscode-tests/no-workspace/history-item-label-provider.test.ts:115 | reading the decimal text of a count gives the count back |
| `Decimal.NatToStringInjective` | extensions/ql-vscode/src/vscode-tests/no-workspace/history-item-label-provider.test.ts:133 | different counts have different texts |
| `HistoryItems.BaseName` | extensions/ql-vscode/src/vscode-tests/no-workspace/history-item-label-provider.test.ts:184 | the base name has no `/`, is a suffix of the path, and is preceded by `/` when shorter than the path |
| `HistoryItems.BaseNameOfPlainName` | extensions/ql-vscode/src/vscode-tests/no-workspace/history-item-label-provider.test.ts:184 | a path with no `/` is its own base name |
| `TemplateEngine.Scan` | extensions/ql-vscode/src/vscode-tests/no-workspace/history-item-label-provider.test.ts:29-30 | cuts a template into literal characters and directives, left to right, `%` plus a directive letter being one directive; `ScanLossless` states that the tokens spell the template back |
| `TemplateEngine.Substitute` | extensions/ql-vscode/src/vscode-tests/no-workspace/history-item-label-provider.test.ts:29-30 | replaces every directive by its value in one left-to-right pass, an absent value by nothing; pinned by `SubstituteDirectiveAlone`, `SubstituteWithoutDirective`, `SubstituteSeparator`, `DirectiveAfterSeparator` and `PercentIsLiteral` |
| `TemplateEngine.RenderSegment` | extensions/ql-vscode/src/vscode-tests/no-workspace/history-item-label-provider.test.ts:145-166 | one segment's label: substitution, then space normalisation; pinned by `RenderSegmentDelimiter`, `RenderSegmentIgnoresSpacing` and `RenderPlainWords` |
| `TemplateEngine.Split` | extensions/ql-vscode/src/vscode-tests/no-workspace/history-item-label-provider.test.ts:32-33 | cuts a template at every `::`, giving at least one segment; `SplitJoin` states that no segment holds `::`, that `Join` gives the template back, and that each cut is the leftmost `::` of the text still to split |
| `TemplateEngine.Join` | extensions/ql-vscode/src/vscode-tests/no-workspace/history-item-label-provider.test.ts:32-33 | joins segments with `::`; `SplitJoin` states that it undoes `Split` |
| `TemplateEngine.Render` | extensions/ql-vscode/src/vscode-tests/no-workspace/history-item-label-provider.test.ts:29-33 | the label of a template: each segment rendered on its own, joined with `::`; pinned by `RenderInOnePass`, `SegmentIndependence`, `SpacingInsensitive` and `RenderNormalised` |
| `TemplateEngine.ScanLossless` | extensions/ql-vscode/src/vscode-tests/no-workspace/history-item-label-provider.test.ts:29-30 | scanning a template into literals and directives loses no text: the tokens spell the template back |
| `TemplateEngine.SplitJoin` | extensions/ql-vscode/src/vscode-tests/no-workspace/history-item-label-provider.test.ts:32-33 | splitting on `::` gives at least one segment, no segment holds `::`, joining with `::` gives the template back, the first cut is at the leftmost `::`, and the segments after it are the split of the text after that `::` |
| `TemplateEngine.SplitWithoutDelimiter` | extensions/ql-vscode/src/vscode-tests/no-workspace/history-item-label-provider.test.ts:29-30 | a template without `::` is a single segment |
| `TemplateEngine.SubstituteSeparator` | extensions/ql-vscode/src/vscode-tests/no-workspace/history-item-label-provider.test.ts:29-30 | a character that names no directive (any character other than `%` and the directive letters) is kept, and the text on either side of it is substituted independently |
| `TemplateEngine.SubstituteWords` | extensions/ql-vscode/src/vscode-tests/no-workspace/history-item-label-provider.test.ts:29-30 | substituting space-separated words gives the words' substitutions separated by single spaces |
| `TemplateEngine.RenderPlainWords` | extensions/ql-vscode/src/vscode-tests/no-workspace/history-item-label-provider.test.ts:29-30 | words whose values are non-empty and plain render as those values joined by single spaces |
| `TemplateEngine.SubstituteDirectiveAlone` | extensions/ql-vscode/src/vscode-tests/no-workspace/history-item-label-provider.test.ts:29-30 | a directive on its own substitutes to its value |
| `TemplateEngine.SubstituteDirectives` | extensions/ql-vscode/src/vscode-tests/no-workspace/history-item-label-provider.test.ts:29-30 | a list of directives substitutes, one by one, to their values |
| `TemplateEngine.SubstituteWithoutDirective` | extensions/ql-vscode/src/vscode-tests/no-workspace/history-item-label-provider.test.ts:24-27 | text with no directive is unchanged by substitution |
| `TemplateEngine.DirectiveAfterSeparator` | extensions/ql-vscode/src/vscode-tests/no-workspace/history-item-label-provider.test.ts:29-30 | a directive after a separator is replaced by its value and the rest is substituted on its own |
| `TemplateEngine.RenderSegmentDelimiter` | extensions/ql-vscode/src/vscode-tests/no-workspace/history-item-label-provider.test.ts:32-33 | substituting and normalising `A::B` as one text gives A's result, `::`, and B's result |
| `TemplateEngine.RenderSegmentsJoin` | extensions/ql-vscode/src/vscode-tests/no-workspace/history-item-label-provider.test.ts:32-33 | rendering each segment and joining them with `::` equals rendering the joined text in one pass |
| `TemplateEngine.RenderInOnePass` | extensions/ql-vscode/src/vscode-tests/no-workspace/history-item-label-provider.test.ts:32-33 | the per-segment rendering equals one substitution and one normalisation of the whole template |
| `TemplateEngine.SegmentIndependence` | extensions/ql-vscode/src/vscode-tests/no-workspace/history-item-label-provider.test.ts:32-33 | for all A and B, `A::B` renders as A's label, `::`, and B's label |
| `TemplateEngine.RenderNormalised` | extensions/ql-vscode/src/vscode-tests/no-workspace/history-item-label-provider.test.ts:145-150 | a rendered label never holds two adjacent spaces |
| `TemplateEngine.RenderSegmentIgnoresSpacing` | extensions/ql-vscode/src/vscode-tests/no-workspace/history-item-label-provider.test.ts:145-150 | normalising the template's spaces before rendering a segment does not change the result |
| `TemplateEngine.SpacingInsensitive` | extensions/ql-vscode/src/vscode-tests/no-workspace/history-item-label-provider.test.ts:145-150 | templates that differ only in the lengths of their space runs render to the same label |
| `TemplateEngine.RenderLeadingSpaces` | extensions/ql-vscode/src/vscode-tests/no-workspace/history-item-label-provider.test.ts:153-158 | a leading run of n ≥ 1 spaces becomes one space in front of the substituted rest, not nothing |
| `TemplateEngine.RenderTrailingSpaces` | extensions/ql-vscode/src/vscode-tests/no-workspace/history-item-label-provider.test.ts:161-166 | a trailing run of n ≥ 1 spaces becomes one space after the substituted rest, not nothing |
| `TemplateEngine.ResultsOmittedWithoutResults` | extensions/ql-vscode/src/vscode-tests/no-workspace/history-item-label-provider.test.ts:137-142 | for an entry with no results, ` %r ` renders as a single space: the label is the one without `%r`, with no double space |
| `TemplateEngine.ResultsShownWithResults` | extensions/ql-vscode/src/vscode-tests/no-workspace/history-item-label-provider.test.ts:129-134 | for an entry with results, ` %r ` substitutes to ` (N results) ` between the two sides |
| `TemplateEngine.PercentIsLiteral` | extensions/ql-vscode/src/vscode-tests/no-workspace/history-item-label-provider.test.ts:29-30 | `%%` after a separator becomes one literal `%` and starts no directive |
| `Whitespace.Collapse` | extensions/ql-vscode/src/vscode-tests/no-workspace/history-item-label-provider.test.ts:145-166 | turns every run of spaces into one space; pinned by `CollapseSqueeze`, `CollapseUnchangedIff`, `CollapseNormalises`, `CollapseKeepsNonSpaces` and `CollapseSpaceRun` |
| `Whitespace.CollapseNormalises` | extensions/ql-vscode/src/vscode-tests/no-workspace/history-item-label-provider.test.ts:145-150 | normalised text has no double space, is no longer than the input, and keeps its first and last characters |
| `Whitespace.CollapseKeepsNonSpaces` | extensions/ql-vscode/src/vscode-tests/no-workspace/history-item-label-provider.test.ts:145-150 | normalising removes only spaces: the non-space characters are the same, in order |
| `Whitespace.CollapseFixesNormal` | extensions/ql-vscode/src/vscode-tests/no-workspace/history-item-label-provider.test.ts:145-150 | text without a double space is left unchanged |
| `Whitespace.CollapseUnchangedIff` | extensions/ql-vscode/src/vscode-tests/no-workspace/history-item-label-provider.test.ts:145-150 | normalising leaves text unchanged exactly when it has no double space |
| `Whitespace.CollapseIdempotent` | extensions/ql-vscode/src/vscode-tests/no-workspace/history-item-label-provider.test.ts:145-150 | normalising twice equals normalising once |
| `Whitespace.CollapseAppend` | extensions/ql-vscode/src/vscode-tests/no-workspace/history-item-label-provider.test.ts:145-150 | two texts that do not meet space to space normalise independently |
| `Whitespace.CollapseSqueeze` | extensions/ql-vscode/src/vscode-tests/no-workspace/history-item-label-provider.test.ts:137-142 | two spaces between any texts normalise as one |
| `Whitespace.CollapseCongruence` | extensions/ql-vscode/src/vscode-tests/no-workspace/history-item-label-provider.test.ts:145-150 | normalising a suffix first does not change the normalisation of the whole |
| `Whitespace.CollapseSpaceRun` | extensions/ql-vscode/src/vscode-tests/no-workspace/history-item-label-provider.test.ts:145-150 | a run of n ≥ 1 spaces between any texts normalises as a single space |
| `Whitespace.CollapseSpaced` | extensions/ql-vscode/src/vscode-tests/no-workspace/history-item-label-provider.test.ts:145-150 | words separated by runs of any positive lengths normalise as the words separated by single spaces |
| `Whitespace.CollapseWords` | extensions/ql-vscode/src/vscode-tests/no-workspace/history-item-label-provider.test.ts:137-142 | joining plain words and normalising drops the empty words without a trace |
| `Whitespace.SpaceBeforePlainWord` | extensions/ql-vscode/src/vscode-tests/no-workspace/history-item-label-provider.test.ts:153-158 | one space in front of a plain word survives normalisation |
| `Whitespace.SpaceAfterPlainWord` | extensions/ql-vscode/src/vscode-tests/no-workspace/history-item-label-provider.test.ts:161-166 | one space after a plain word survives normalisation |
| `LabelProvider.LabelTemplate` | extensions/ql-vscode/src/vscode-tests/no-workspace/history-item-label-provider.test.ts:24-46 | the template is the entry's own label when it has a non-empty one, else the configured format |
| `LabelProvider.GetLabel` | extensions/ql-vscode/src/vscode-tests/no-workspace/history-item-label-provider.test.ts:145-166 | no label ever holds two adjacent spaces |
| `LabelProvider.GetShortLabel` | extensions/ql-vscode/src/vscode-tests/no-workspace/history-item-label-provider.test.ts:49-58 | the short label is the entry's own label when it has a non-empty one, else the query name, with no directive processing |
| `LabelProvider.UserLabelOverridesFormat` | extensions/ql-vscode/src/vscode-tests/no-workspace/history-item-label-provider.test.ts:24-33 | with an own label, any two configured formats give the same label, the rendering of the own label |
| `LabelProvider.FormatUsedWithoutUserLabel` | extensions/ql-vscode/src/vscode-tests/no-workspace/history-item-label-provider.test.ts:36-46 | without an own label, the configured format is rendered |
| `LabelProvider.PlainUserLabelVerbatim` | extensions/ql-vscode/src/vscode-tests/no-workspace/history-item-label-provider.test.ts:24-27 | an own label without directives comes back verbatim exactly when it has no double space |
| `LabelProvider.ShortLabelMatchesPlainLabel` | extensions/ql-vscode/src/vscode-tests/no-workspace/history-item-label-provider.test.ts:49-53 | for an own label without directives or double spaces, the short label and the full label agree |
| `LabelProviderExamples.LocalValues` | extensions/ql-vscode/src/vscode-tests/no-workspace/history-item-label-provider.test.ts:60-82 | the local test entry's values of `%t %q %d %s %f %r %%` are the date, `query-name`, `db-name`, `in progress`, `query-file.ql`, `(456 results)`, `%` |
| `LabelProviderExamples.LocalAllDirectives` | extensions/ql-vscode/src/vscode-tests/no-workspace/history-item-label-provider.test.ts:29-30 | the local entry renders `%t %q %d %s %f %r %%` as those values joined by single spaces |
| `LabelProviderExamples.InitialFormatRenders` | extensions/ql-vscode/src/vscode-tests/no-workspace/history-item-label-provider.test.ts:18 | `xxx %q xxx` renders as the plain query name between two `xxx` |
| `LabelProviderExamples.LocalUserLabel` | extensions/ql-vscode/src/vscode-tests/no-workspace/history-item-label-provider.test.ts:24-34 | the three labels of the local test with own labels `xxx`, all directives, and all directives twice around `::` |
| `LabelProviderExamples.LocalConfiguredFormat` | extensions/ql-vscode/src/vscode-tests/no-workspace/history-item-label-provider.test.ts:36-47 | the three labels of the local test without an own label, for the three configured formats |
| `LabelProviderExamples.LocalShortLabel` | extensions/ql-vscode/src/vscode-tests/no-workspace/history-item-label-provider.test.ts:49-58 | the local short label is `xxx`, then `query-name` once the own label is removed |
| `LabelProviderExamples.RemoteFixedValues` | extensions/ql-vscode/src/vscode-tests/no-workspace/history-item-label-provider.test.ts:169-195 | the remote test entry's `%q` is `query-name (javascript)` and its `%f` is `query-file.ql` |
| `LabelProviderExamples.ControllerTarget` | extensions/ql-vscode/src/vscode-tests/no-workspace/history-item-label-provider.test.ts:185-190 | with no repository count, the remote `%d` is `github/vscode-codeql-integration-tests` |
| `LabelProviderExamples.TwoRepositoriesTarget` | extensions/ql-vscode/src/vscode-tests/no-workspace/history-item-label-provider.test.ts:111-115 | with two repositories, the remote `%d` is `2 repositories` |
| `LabelProviderExamples.SixteenResults` | extensions/ql-vscode/src/vscode-tests/no-workspace/history-item-label-provider.test.ts:170 | with 16 results, the remote `%r` is `(16 results)` |
| `LabelProviderExamples.RemoteShortDirectives` | extensions/ql-vscode/src/vscode-tests/no-workspace/history-item-label-provider.test.ts:91-92 | the remote entry renders `%t %q %d %s %%` as its five values joined by single spaces |
| `LabelProviderExamples.RemoteUserLabel` | extensions/ql-vscode/src/vscode-tests/no-workspace/history-item-label-provider.test.ts:86-96 | the three labels of the remote test with own labels |
| `LabelProviderExamples.RemoteAllDirectives` | extensions/ql-vscode/src/vscode-tests/no-workspace/history-item-label-provider.test.ts:104-105 | the remote entry with 16 results renders `%t %q %d %s %f %r %%` as its seven values joined by single spaces, whatever its target text |
| `LabelProviderExamples.RemoteConfiguredFormat` | extensions/ql-vscode/src/vscode-tests/no-workspace/history-item-label-provider.test.ts:98-109 | the three labels of the remote test without an own label |
| `LabelProviderExamples.RemoteRepositoryCount` | extensions/ql-vscode/src/vscode-tests/no-workspace/history-item-label-provider.test.ts:111-116 | with two repositories and 16 results, the label names `2 repositories` instead of the controller repository, and shows `(16 results)` |
| `LabelProviderExamples.RemoteShortLabel` | extensions/ql-vscode/src/vscode-tests/no-workspace/history-item-label-provider.test.ts:118-127 | the remote short label is `xxx`, then `query-name` without the language |
| `LabelProviderExamples.NoResultsSubstitute` | extensions/ql-vscode/src/vscode-tests/no-workspace/history-item-label-provider.test.ts:137-142 | with no results, `%t %q %d %s %f %%` substitutes to the six values joined by single spaces, a plain text |
| `LabelProviderExamples.NoResultsRender` | extensions/ql-vscode/src/vscode-tests/no-workspace/history-item-label-provider.test.ts:137-142 | with no results, `%t %q %d %s %f %r %%` renders as the six values without `%r` joined by single spaces |
| `LabelProviderExamples.RemoteWithoutResults` | extensions/ql-vscode/src/vscode-tests/no-workspace/history-item-label-provider.test.ts:137-142 | the label of the test without results, with no double space where `%r` was |
| `LabelProviderExamples.IrregularFormat` | extensions/ql-vscode/src/vscode-tests/no-workspace/history-item-label-provider.test.ts:148 | the irregular template is the seven directives separated by runs of 3, 8, 1, 3, 3 and 1 spaces |
| `LabelProviderExamples.RemoteInnerSpacing` | extensions/ql-vscode/src/vscode-tests/no-workspace/history-item-label-provider.test.ts:145-150 | the seven directives separated by runs of any positive lengths give the label of the single-spaced template |
| `LabelProviderExamples.RemoteInnerSpacingExample` | extensions/ql-vscode/src/vscode-tests/no-workspace/history-item-label-provider.test.ts:145-150 | the label of the inner-whitespace test |
| `LabelProviderExamples.RemoteLeadingSpaces` | extensions/ql-vscode/src/vscode-tests/no-workspace/history-item-label-provider.test.ts:153-158 | any leading run of n ≥ 1 spaces gives the label with exactly one leading space |
| `LabelProviderExamples.RemoteLeadingSpacesExample` | extensions/ql-vscode/src/vscode-tests/no-workspace/history-item-label-provider.test.ts:153-158 | the label of the leading-whitespace test |
| `LabelProviderExamples.RemoteTrailingSpaces` | extensions/ql-vscode/src/vscode-tests/no-workspace/history-item-label-provider.test.ts:161-166 | any trailing run of n ≥ 1 spaces gives the label with exactly one trailing space |
| `LabelProviderExamples.RemoteTrailingSpacesExample` | extensions/ql-vscode/src/vscode-tests/no-workspace/history-item-label-provider.test.ts:161-166 | the label of the trailing-whitespace test |

## Left out

- The implementation file of the label provider is not part of this model. Its behaviour is taken from the assertions of its test suite. Where the tests are silent, the model makes the choices in the next two lines.
- An empty own label counts as no own label: the configured format is rendered, and the short label is the query name. The tests only set the own label `xxx` or a directive template, or remove it.
- A local entry without results drops `%r` exactly as a remote one does. The tests only show a local entry with 456 results and a remote entry with none.
- Date formatting: `%t` is the entry's start time as an already formatted display string for both kinds. Locale-dependent formatting and the remote entry's start time in epoch milliseconds are not modelled.
- Configuration loading: the configured format is a parameter read at call time. The mutable configuration object and its ownership are not modelled.
- Whitespace other than the space character (tabs, newlines) is not normalised, and the tests do not use it.
- Unknown directives such as `%x` are passed through as literal text. This is a modelling choice, because the tests do not exercise them.
- The remote `%f` is the part of the query file path after the last `/`. The tests only use a plain file name, and no other path handling is modelled.
- The test harness, the mock casts and the VS Code API are not logic and are left out.
- `LabelProvider.PlainUserLabelVerbatim`: an own label without directives comes back verbatim only when it holds no double space. The own label is rendered like any template, so its runs of spaces are normalised to single spaces. The tests only use the own label `xxx`, which has no space.
- `LabelProvider.GetLabel`: its own contract states only the no-double-space guarantee. What the label is for each template is stated by `LabelTemplate`, `UserLabelOverridesFormat`, `FormatUsedWithoutUserLabel` and the rendering lemmas.
