/**
 The two row layouts of the commit list. Each row is a list of columns and
 each column a styled string.
 */
module CommitRows {
  import opened Styling
  import opened Models
  import opened External
  import opened CommitColors
  import opened CommitTemplate
  import Strings

  type Row = seq<Styled>

  /** Visible width the author name is truncated to. */
  const AuthorTruncateLimit: int := 17

  /** Width the action label is padded to in the template layout. */
  const ActionPadding: int := 7

  /** The short hash in its resolved colour. */
  function ShaColumn(h: Helpers, c: Commit, cherryPicked: map<string, bool>, diffed: bool): Styled
  {
    Sprint(ShaColor(c.status, diffed, IsCherryPicked(cherryPicked, c.sha)), h.shortSha(c))
  }

  /** The truncated author name in yellow. */
  function AuthorColumn(h: Helpers, c: Commit): Styled
  {
    Sprint(Yellow, h.truncateWithEllipsis(c.author, AuthorTruncateLimit))
  }

  /** The subject in the default text colour, before any prefix. */
  function MessageColumn(c: Commit): Styled
  {
    Sprint(DefaultText, c.name)
  }

  /** The commit date in blue. */
  function DateColumn(h: Helpers, c: Commit): Styled
  {
    Sprint(Blue, h.unixToDate(c.unixTimestamp))
  }

  /** The action in its action colour, unpadded. */
  function ActionColumn(c: Commit): Styled
  {
    Sprint(ActionColorMap(c.action), c.action)
  }

  /** The extra-info label in bold magenta followed by a plain space. */
  function ExtraInfoLabel(c: Commit): Styled
  {
    Sprint(BoldMagenta, c.extraInfo) + Raw(" ")
  }

  /** The padded action in its action colour followed by a plain space. */
  function ActionLabel(h: Helpers, c: Commit): Styled
  {
    Sprint(ActionColorMap(c.action), h.withPadding(c.action, ActionPadding)) + Raw(" ")
  }

  /** The tags joined by single spaces in bold magenta, followed by a plain space. */
  function TagsLabel(c: Commit): Styled
  {
    Sprint(BoldMagenta, Strings.Join(c.tags, " ")) + Raw(" ")
  }

  /** Whether the full-description layout prefixes the subject with the extra info. */
  predicate ShowsExtraInfo(c: Commit)
  {
    c.action == "" && c.extraInfo != ""
  }

  /** Whether the template layout prefixes the message column with the tags. */
  predicate ShowsTags(c: Commit)
  {
    c.action == "" && |c.tags| > 0
  }

  /** The full-description layout: hash, action or date, author, subject. */
  function FullDescriptionDisplayStrings(h: Helpers, c: Commit, cherryPicked: map<string, bool>, diffed: bool): (row: Row)
    ensures |row| == 4
    ensures row[0] == ShaColumn(h, c, cherryPicked, diffed)
    ensures row[1] == ActionColumn(c) <==> c.action != ""
    ensures row[1] == DateColumn(h, c) <==> c.action == ""
    ensures row[2] == AuthorColumn(h, c)
    ensures row[3] == ExtraInfoLabel(c) + MessageColumn(c) <==> ShowsExtraInfo(c)
    ensures row[3] == MessageColumn(c) <==> !ShowsExtraInfo(c)
  {
    var tagString: Styled := if c.action == "" && c.extraInfo != "" then ExtraInfoLabel(c) else [];
    var secondColumnString := if c.action != "" then ActionColumn(c) else DateColumn(h, c);
    assert ActionColorMap(c.action) != Blue;
    assert |ExtraInfoLabel(c) + MessageColumn(c)| == 3;
    [ShaColumn(h, c, cherryPicked, diffed), secondColumnString, AuthorColumn(h, c), tagString + MessageColumn(c)]
  }

  /** The label in front of the first template column: the action label when
      there is an action, nothing otherwise. */
  function ActionPrefix(h: Helpers, c: Commit): Styled
  {
    if c.action != "" then ActionLabel(h, c) else []
  }

  /** The label in front of every message column of the template layout: the
      tags when there is no action and some tag, nothing otherwise. */
  function TagPrefix(c: Commit): Styled
  {
    if ShowsTags(c) then TagsLabel(c) else []
  }

  /** `column` is what template key `key` asks for, given the three candidates. */
  predicate IsColumnFor(key: CommitTemplateKey, column: Styled, sha: Styled, message: Styled, author: Styled)
  {
    && (key == ShortShaCommitKey ==> column == sha)
    && (key == MessageCommitKey ==> column == message)
    && (key == AuthorCommitKey ==> column == author)
  }

  /** The template loop: one column per key, in order; a key outside the three
      recognised ones adds no column. */
  function AppendColumns(keys: seq<CommitTemplateKey>, sha: Styled, message: Styled, author: Styled): (parts: seq<Styled>)
    ensures |parts| <= |keys|
    ensures (forall i :: 0 <= i < |keys| ==> IsValid(keys[i])) ==>
      && |parts| == |keys|
      && forall i :: 0 <= i < |keys| ==> IsColumnFor(keys[i], parts[i], sha, message, author)
  {
    if |keys| == 0 then []
    else
      var part :=
        if keys[0] == ShortShaCommitKey then [sha]
        else if keys[0] == MessageCommitKey then [message]
        else if keys[0] == AuthorCommitKey then [author]
        else [];
      part + AppendColumns(keys[1..], sha, message, author)
  }

  /** `parts[0] = prefix + parts[0]`: only the first column changes. */
  function PrependToFirst(prefix: Styled, parts: seq<Styled>): (r: seq<Styled>)
    requires |parts| >= 1
    ensures |r| == |parts|
    ensures r[0] == prefix + parts[0]
    ensures forall i :: 0 < i < |r| ==> r[i] == parts[i]
  {
    [prefix + parts[0]] + parts[1..]
  }

  /** The template layout. Column i is the one template key i asks for; the
      action label, when there is an action, goes in front of the first
      column whatever it is; the tags, when there is no action, go in front of
      every message column. */
  function DisplayStringsForCommit(h: Helpers, c: Commit, cherryPicked: map<string, bool>, diffed: bool, commitTemplate: string): (row: Row)
    ensures |row| == |ListOfAllowedParts(commitTemplate)|
    ensures IsColumnFor(ListOfAllowedParts(commitTemplate)[0], row[0],
                        ActionPrefix(h, c) + ShaColumn(h, c, cherryPicked, diffed),
                        ActionPrefix(h, c) + TagPrefix(c) + MessageColumn(c),
                        ActionPrefix(h, c) + AuthorColumn(h, c))
    ensures forall i :: 0 < i < |row| ==>
      IsColumnFor(ListOfAllowedParts(commitTemplate)[i], row[i],
                  ShaColumn(h, c, cherryPicked, diffed),
                  TagPrefix(c) + MessageColumn(c),
                  AuthorColumn(h, c))
  {
    var actionString: Styled := ActionPrefix(h, c);
    var tagString: Styled := TagPrefix(c);
    var commitTemplateParts := ListOfAllowedParts(commitTemplate);
    var parts := AppendColumns(commitTemplateParts, ShaColumn(h, c, cherryPicked, diffed),
                               tagString + MessageColumn(c), AuthorColumn(h, c));
    PrependToFirst(actionString, parts)
  }

  /** The subject column of the full-description layout reads as the extra
      info and a space before the subject exactly when there is no action and
      some extra info, and as the bare subject otherwise. */
  lemma FullDescriptionSubjectText(h: Helpers, c: Commit, cherryPicked: map<string, bool>, diffed: bool)
    ensures var row := FullDescriptionDisplayStrings(h, c, cherryPicked, diffed);
      Text(row[3]) == (if ShowsExtraInfo(c) then c.extraInfo + " " + c.name else c.name)
  {
    if ShowsExtraInfo(c) {
      TextAppend(Sprint(BoldMagenta, c.extraInfo), Raw(" "));
      TextAppend(ExtraInfoLabel(c), MessageColumn(c));
    }
  }

  /** With an action, the first template column reads as the padded action and
      a space before what its key asks for, and no column carries the tags. */
  lemma TemplateActionPrefix(h: Helpers, c: Commit, cherryPicked: map<string, bool>, diffed: bool, commitTemplate: string)
    requires c.action != ""
    ensures var row := DisplayStringsForCommit(h, c, cherryPicked, diffed, commitTemplate);
      var keys := ListOfAllowedParts(commitTemplate);
      && IsColumnFor(keys[0], row[0],
                     ActionLabel(h, c) + ShaColumn(h, c, cherryPicked, diffed),
                     ActionLabel(h, c) + MessageColumn(c),
                     ActionLabel(h, c) + AuthorColumn(h, c))
      && (forall i :: 0 < i < |row| ==>
            IsColumnFor(keys[i], row[i], ShaColumn(h, c, cherryPicked, diffed), MessageColumn(c), AuthorColumn(h, c)))
      && exists first: Styled :: row[0] == ActionLabel(h, c) + first
           && Text(row[0]) == h.withPadding(c.action, ActionPadding) + " " + Text(first)
  {
    var row := DisplayStringsForCommit(h, c, cherryPicked, diffed, commitTemplate);
    var keys := ListOfAllowedParts(commitTemplate);
    var first :=
      if keys[0] == ShortShaCommitKey then ShaColumn(h, c, cherryPicked, diffed)
      else if keys[0] == MessageCommitKey then MessageColumn(c)
      else AuthorColumn(h, c);
    assert TagPrefix(c) == [];
    assert [] + MessageColumn(c) == MessageColumn(c);
    assert row[0] == ActionLabel(h, c) + first;
    TextAppend(Sprint(ActionColorMap(c.action), h.withPadding(c.action, ActionPadding)), Raw(" "));
    TextAppend(ActionLabel(h, c), first);
  }

  /** Without an action but with tags, every message column of the template
      layout reads as the tags joined by single spaces, a space, and the
      subject; the other columns carry no prefix. */
  lemma TemplateTagsPrefix(h: Helpers, c: Commit, cherryPicked: map<string, bool>, diffed: bool, commitTemplate: string)
    requires ShowsTags(c)
    ensures var row := DisplayStringsForCommit(h, c, cherryPicked, diffed, commitTemplate);
      var keys := ListOfAllowedParts(commitTemplate);
      forall i :: 0 <= i < |row| ==>
        && (keys[i] == MessageCommitKey ==> Text(row[i]) == Strings.Join(c.tags, " ") + " " + c.name)
        && (keys[i] == ShortShaCommitKey ==> row[i] == ShaColumn(h, c, cherryPicked, diffed))
        && (keys[i] == AuthorCommitKey ==> row[i] == AuthorColumn(h, c))
  {
    var row := DisplayStringsForCommit(h, c, cherryPicked, diffed, commitTemplate);
    var keys := ListOfAllowedParts(commitTemplate);
    var message := TagsLabel(c) + MessageColumn(c);
    assert Text(message) == Strings.Join(c.tags, " ") + " " + c.name by {
      TextAppend(Sprint(BoldMagenta, Strings.Join(c.tags, " ")), Raw(" "));
      TextAppend(TagsLabel(c), MessageColumn(c));
    }
    assert ActionPrefix(h, c) == [] && TagPrefix(c) == TagsLabel(c);
    assert IsColumnFor(keys[0], row[0], ShaColumn(h, c, cherryPicked, diffed), message, AuthorColumn(h, c)) by {
      assert [] + message == message;
      assert [] + ShaColumn(h, c, cherryPicked, diffed) == ShaColumn(h, c, cherryPicked, diffed);
      assert [] + AuthorColumn(h, c) == AuthorColumn(h, c);
    }
  }

  /** Without an action and without tags, every template column is exactly
      what its key asks for. */
  lemma TemplateNoPrefix(h: Helpers, c: Commit, cherryPicked: map<string, bool>, diffed: bool, commitTemplate: string)
    requires c.action == "" && |c.tags| == 0
    ensures var row := DisplayStringsForCommit(h, c, cherryPicked, diffed, commitTemplate);
      var keys := ListOfAllowedParts(commitTemplate);
      forall i :: 0 <= i < |row| ==>
        IsColumnFor(keys[i], row[i], ShaColumn(h, c, cherryPicked, diffed), MessageColumn(c), AuthorColumn(h, c))
  {
    assert ActionPrefix(h, c) == [] && TagPrefix(c) == [];
    assert [] + MessageColumn(c) == MessageColumn(c);
    assert [] + ([] + MessageColumn(c)) == MessageColumn(c);
  }

  /** A "pick" commit under the template "short-sha|message": two columns, the
      first being the cyan padded "pick", a space, and the short hash. */
  lemma PickScenario(h: Helpers, c: Commit, cherryPicked: map<string, bool>, diffed: bool, commitTemplate: string)
    requires c.action == "pick" && commitTemplate == "short-sha|message"
    ensures var row := DisplayStringsForCommit(h, c, cherryPicked, diffed, commitTemplate);
      && |row| == 2
      && row[0] == [Segment(Cyan, h.withPadding("pick", ActionPadding)), Segment(Unstyled, " "),
                    Segment(ShaColor(c.status, diffed, IsCherryPicked(cherryPicked, c.sha)), h.shortSha(c))]
      && row[1] == [Segment(DefaultText, c.name)]
  {
    ParseShaMessageExample(commitTemplate);
    ActionShaMessageRow(h, c, cherryPicked, diffed, commitTemplate);
  }

  /** Under the template short-sha then message, a commit with an action has
      the action label before the hash and a bare subject. */
  lemma ActionShaMessageRow(h: Helpers, c: Commit, cherryPicked: map<string, bool>, diffed: bool, commitTemplate: string)
    requires ListOfAllowedParts(commitTemplate) == [ShortShaCommitKey, MessageCommitKey] && c.action != ""
    ensures DisplayStringsForCommit(h, c, cherryPicked, diffed, commitTemplate)
         == [ActionLabel(h, c) + ShaColumn(h, c, cherryPicked, diffed), MessageColumn(c)]
  {
    assert ActionPrefix(h, c) == ActionLabel(h, c) && TagPrefix(c) == [];
    assert [] + MessageColumn(c) == MessageColumn(c);
  }

  /** A commit without an action tagged "v1.0" and "release" under the
      template "message": one column, the bold magenta "v1.0 release", a plain
      space, and the subject. */
  lemma TagsScenario(h: Helpers, c: Commit, cherryPicked: map<string, bool>, diffed: bool, commitTemplate: string)
    requires c.action == "" && c.tags == ["v1.0", "release"] && commitTemplate == "message"
    ensures var row := DisplayStringsForCommit(h, c, cherryPicked, diffed, commitTemplate);
      && |row| == 1
      && row[0] == [Segment(BoldMagenta, "v1.0 release"), Segment(Unstyled, " "), Segment(DefaultText, c.name)]
  {
    ParseSingleKeyExample(commitTemplate);
    TagsOnlyRow(h, c, cherryPicked, diffed, commitTemplate);
    ReleaseTagsLabel(c);
  }

  /** The tags label of the commit of the previous scenario. */
  lemma ReleaseTagsLabel(c: Commit)
    requires c.tags == ["v1.0", "release"]
    ensures Strings.Join(c.tags, " ") == "v1.0 release"
    ensures TagsLabel(c) + MessageColumn(c)
         == [Segment(BoldMagenta, "v1.0 release"), Segment(Unstyled, " "), Segment(DefaultText, c.name)]
  {
    assert c.tags[1..] == ["release"];
  }

  /** Under a template of the message key alone, a commit shown with its tags
      has the single column tags label then subject. */
  lemma TagsOnlyRow(h: Helpers, c: Commit, cherryPicked: map<string, bool>, diffed: bool, commitTemplate: string)
    requires ListOfAllowedParts(commitTemplate) == [MessageCommitKey] && ShowsTags(c)
    ensures DisplayStringsForCommit(h, c, cherryPicked, diffed, commitTemplate) == [TagsLabel(c) + MessageColumn(c)]
  {
    assert ActionPrefix(h, c) == [] && TagPrefix(c) == TagsLabel(c);
    assert [] + TagsLabel(c) + MessageColumn(c) == TagsLabel(c) + MessageColumn(c);
  }
}
