/**
 Colour resolution for a commit row: the colour of the short hash, decided by
 a fixed priority (diffed, then cherry-picked, then the commit's status), and
 the colour of an interactive-rebase action label.
 */
module CommitColors {
  import opened Styling

  /** The status table: the colour of the hash when nothing overrides it. */
  function StatusColor(status: string): (style: Style)
    ensures style == Red <==> status == "unpushed"
    ensures style == Yellow <==> status == "pushed"
    ensures style == Green <==> status == "merged"
    ensures style == Blue <==> status == "rebasing" || status == "reflog"
    ensures style == DefaultText <==>
      status !in {"unpushed", "pushed", "merged", "rebasing", "reflog"}
  {
    if status == "unpushed" then Red
    else if status == "pushed" then Yellow
    else if status == "merged" then Green
    else if status == "rebasing" then Blue
    else if status == "reflog" then Blue
    else DefaultText
  }

  /** Membership in the cherry-picked map: a hash that is missing, or that is
      mapped to false, is not cherry-picked. */
  function IsCherryPicked(cherryPicked: map<string, bool>, sha: string): (picked: bool)
    ensures picked ==> sha in cherryPicked
    ensures sha !in cherryPicked ==> !picked
    ensures sha in cherryPicked ==> (picked <==> cherryPicked[sha])
  {
    sha in cherryPicked && cherryPicked[sha]
  }

  /** The hash colour. The status colour is chosen first and then overridden,
      first by the diffed colour, then by the copied colour. */
  function ShaColor(status: string, diffed: bool, cherryPicked: bool): (style: Style)
    ensures diffed ==> style == DiffTerminal
    ensures !diffed && cherryPicked ==> style == Copied
    ensures !diffed && !cherryPicked ==> style == StatusColor(status)
    ensures style == DiffTerminal <==> diffed
    ensures style == Copied <==> !diffed && cherryPicked
    ensures style in {Red, Yellow, Green, Blue, DefaultText, DiffTerminal, Copied}
  {
    var shaColor := StatusColor(status);
    if diffed then DiffTerminal
    else if cherryPicked then Copied
    else shaColor
  }

  /** The colour of an interactive-rebase action; total, yellow by default. */
  function ActionColorMap(action: string): (style: Style)
    ensures style == Cyan <==> action == "pick"
    ensures style == Red <==> action == "drop"
    ensures style == Green <==> action == "edit"
    ensures style == Magenta <==> action == "fixup"
    ensures style == Yellow <==> action !in {"pick", "drop", "edit", "fixup"}
    ensures style in {Cyan, Red, Green, Magenta, Yellow}
  {
    if action == "pick" then Cyan
    else if action == "drop" then Red
    else if action == "edit" then Green
    else if action == "fixup" then Magenta
    else Yellow
  }
}
