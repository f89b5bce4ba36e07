/**
 The entry point of the commit list: one row per commit, in order, in the
 layout the caller asks for.
 */
module CommitList {
  import opened Styling
  import opened Models
  import opened External
  import opened CommitColors
  import opened CommitTemplate
  import opened CommitRows

  /** The row of one commit in the chosen layout. */
  function DisplayRow(h: Helpers, fullDescription: bool, c: Commit, cherryPicked: map<string, bool>,
                      diffed: bool, commitTemplate: string): (row: Row)
    ensures fullDescription ==> |row| == 4
    ensures !fullDescription ==> |row| == |ListOfAllowedParts(commitTemplate)|
    ensures |row| >= 1
  {
    if fullDescription then FullDescriptionDisplayStrings(h, c, cherryPicked, diffed)
    else DisplayStringsForCommit(h, c, cherryPicked, diffed, commitTemplate)
  }

  /** Formats every commit: row i is the row of commit i, diffed exactly when
      its hash equals `diffName`. */
  method GetCommitListDisplayStrings(h: Helpers, commits: seq<Commit>, fullDescription: bool,
                                     cherryPicked: map<string, bool>, diffName: string,
                                     commitTemplate: string)
    returns (lines: seq<Row>)
    ensures |lines| == |commits|
    ensures forall i :: 0 <= i < |lines| ==>
      lines[i] == DisplayRow(h, fullDescription, commits[i], cherryPicked, commits[i].sha == diffName, commitTemplate)
  {
    lines := seq(|commits|, _ => []);
    var i := 0;
    while i < |commits|
      invariant 0 <= i <= |commits|
      invariant |lines| == |commits|
      invariant forall j :: 0 <= j < i ==>
        lines[j] == DisplayRow(h, fullDescription, commits[j], cherryPicked, commits[j].sha == diffName, commitTemplate)
    {
      var diffed := commits[i].sha == diffName;
      var row := DisplayRow(h, fullDescription, commits[i], cherryPicked, diffed, commitTemplate);
      lines := lines[i := row];
      i := i + 1;
    }
  }

  /** The hash colour of every row follows the priority rule: the diffed
      colour for the commit whose hash is `diffName`, else the copied colour
      for a cherry-picked commit, else its status colour. In the
      full-description layout the hash is column 0; in the template layout it
      is the last segment of every short-sha column. */
  lemma ShaColumnsFollowPriority(h: Helpers, commits: seq<Commit>, fullDescription: bool,
                                 cherryPicked: map<string, bool>, diffName: string,
                                 commitTemplate: string, lines: seq<Row>, i: int, j: int)
    requires |lines| == |commits|
    requires forall k :: 0 <= k < |commits| ==>
      lines[k] == DisplayRow(h, fullDescription, commits[k], cherryPicked, commits[k].sha == diffName, commitTemplate)
    requires 0 <= i < |commits|
    requires if fullDescription then j == 0
             else 0 <= j < |ListOfAllowedParts(commitTemplate)| && ListOfAllowedParts(commitTemplate)[j] == ShortShaCommitKey
    ensures j < |lines[i]| && |lines[i][j]| > 0
    ensures var last := lines[i][j][|lines[i][j]| - 1];
      && last.text == h.shortSha(commits[i])
      && (last.style == DiffTerminal <==> commits[i].sha == diffName)
      && (last.style == Copied <==> commits[i].sha != diffName && IsCherryPicked(cherryPicked, commits[i].sha))
      && (commits[i].sha != diffName && !IsCherryPicked(cherryPicked, commits[i].sha) ==>
            last.style == StatusColor(commits[i].status))
  {
    var c := commits[i];
    var diffed := c.sha == diffName;
    assert lines[i] == DisplayRow(h, fullDescription, c, cherryPicked, diffed, commitTemplate);
    RowShaColumn(h, fullDescription, c, cherryPicked, diffed, commitTemplate, j);
    var style := ShaColor(c.status, diffed, IsCherryPicked(cherryPicked, c.sha));
    assert lines[i][j][|lines[i][j]| - 1].style == style;
  }

  /** The hash column of one row ends with the short hash in the colour the
      priority rule picks. */
  lemma RowShaColumn(h: Helpers, fullDescription: bool, c: Commit, cherryPicked: map<string, bool>,
                     diffed: bool, commitTemplate: string, j: int)
    requires if fullDescription then j == 0
             else 0 <= j < |ListOfAllowedParts(commitTemplate)| && ListOfAllowedParts(commitTemplate)[j] == ShortShaCommitKey
    ensures var column := DisplayRow(h, fullDescription, c, cherryPicked, diffed, commitTemplate)[j];
      && |column| > 0
      && column[|column| - 1] == Segment(ShaColor(c.status, diffed, IsCherryPicked(cherryPicked, c.sha)), h.shortSha(c))
  {
    var row := DisplayRow(h, fullDescription, c, cherryPicked, diffed, commitTemplate);
    var sha := ShaColumn(h, c, cherryPicked, diffed);
    if fullDescription {
      assert row[j] == sha;
    } else if j == 0 {
      assert row[j] == ActionPrefix(h, c) + sha;
    } else {
      assert row[j] == sha;
    }
  }
}
