/**
 * The label provider: the one-line title of a history entry, rendered from
 * the user's own label for that entry or else from the configured format,
 * and the short label, which is never rendered.
 *
 * The configured format is a parameter: it is read at call time, so a
 * change of configuration between two calls changes the second label.
 */
module LabelProvider {
  import opened Wrappers
  import opened Whitespace
  import opened HistoryItems
  import opened TemplateEngine

  /** The entry carries a non-empty label of the user's own. */
  predicate HasUserLabel(e: HistoryEntry) {
    e.userSpecifiedLabel.Some? && e.userSpecifiedLabel.value != ""
  }

  /** The template a label is rendered from: the user's own label when there is one, else the configured format. */
  function LabelTemplate(e: HistoryEntry, configuredFormat: string): (t: string)
    ensures HasUserLabel(e) ==> t == e.userSpecifiedLabel.value
    ensures !HasUserLabel(e) ==> t == configuredFormat
  {
    if HasUserLabel(e) then e.userSpecifiedLabel.value else configuredFormat
  }

  /** The full label of an entry. */
  function GetLabel(e: HistoryEntry, configuredFormat: string): (r: string)
    ensures NoDoubleSpace(r)
  {
    var t := LabelTemplate(e, configuredFormat);
    RenderNormalised(e, t);
    Render(e, t)
  }

  /** The short label: the user's own label as it stands, else the plain query name. */
  function GetShortLabel(e: HistoryEntry): (r: string)
    ensures HasUserLabel(e) ==> r == e.userSpecifiedLabel.value
    ensures !HasUserLabel(e) ==> r == e.queryName
  {
    if HasUserLabel(e) then e.userSpecifiedLabel.value else e.queryName
  }

  /** With a user label the configured format plays no part. */
  lemma {:induction false} UserLabelOverridesFormat(e: HistoryEntry, format1: string, format2: string)
    requires HasUserLabel(e)
    ensures GetLabel(e, format1) == GetLabel(e, format2) == Render(e, e.userSpecifiedLabel.value)
  {
  }

  /** Without a user label the configured format is rendered. */
  lemma {:induction false} FormatUsedWithoutUserLabel(e: HistoryEntry, format: string)
    requires !HasUserLabel(e)
    ensures GetLabel(e, format) == Render(e, format)
  {
  }

  /**
   * A user label without directives comes back verbatim exactly when it
   * holds no double space (a double space is still normalised).
   */
  lemma {:induction false} PlainUserLabelVerbatim(e: HistoryEntry, format: string)
    requires HasUserLabel(e) && NoDirective(e.userSpecifiedLabel.value)
    ensures GetLabel(e, format) == e.userSpecifiedLabel.value <==> NoDoubleSpace(e.userSpecifiedLabel.value)
  {
    var l := e.userSpecifiedLabel.value;
    RenderInOnePass(e, l);
    SubstituteWithoutDirective(e, l);
    CollapseUnchangedIff(l);
  }

  /** For a plain user label the short label and the full label agree. */
  lemma {:induction false} ShortLabelMatchesPlainLabel(e: HistoryEntry, format: string)
    requires HasUserLabel(e)
    requires NoDirective(e.userSpecifiedLabel.value) && NoDoubleSpace(e.userSpecifiedLabel.value)
    ensures GetShortLabel(e) == GetLabel(e, format)
  {
    PlainUserLabelVerbatim(e, format);
  }
}
