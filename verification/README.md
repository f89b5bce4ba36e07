# Commit-list row formatter

A Dafny model of the code that turns lazygit's list of commits into the rows
of the commits panel (`pkg/gui/presentation/commits.go`). Given the commits,
a layout flag, the map of cherry-picked hashes, the hash of the commit being
diffed and the user's commit template, it yields one row per commit. Each row
is a list of columns and each column a styled string.

The model has these parts:

- **Styling** (`styling.dfy`): a styled string is a sequence of (style, text)
  segments. `color.Sprint` and `utils.ColoredStringDirect` each build one
  segment. A bare `" "` appended in Go is an `Unstyled` segment. The empty Go
  string is the empty sequence.
- **Strings** (`strings.dfy`): Go's `strings.Split` and `strings.Join` for a
  one-character separator. They come with the split/join round trips.
- **Models** and **External** (`models.dfy`, `external.dfy`): the commit
  record, and the helpers whose code lies outside the formatter. The helpers
  are `ShortSha`, `UnixToDate`, `TruncateWithEllipsis` and `WithPadding`, and
  the caller passes them in as functions.
- **CommitTemplate** (`template.dfy`): the three template keys, `IsValid`, and
  the `|`-template parser with its `[short-sha, message]` fallback.
- **CommitColors** (`colors.dfy`): the status table, the diffed > copied >
  status priority for the hash colour, and `actionColorMap`.
- **CommitRows** (`rows.dfy`): the fixed four-column full-description layout
  and the template-driven layout.
- **CommitList** (`commit_list.dfy`): the batch driver `GetCommitListDisplayStrings`.

Every value is immutable and every operation is a pure function, except the
batch driver, which is a method with a loop. So formatting cannot change a
commit, the cherry-pick map or any other input.

Three behaviours of `pkg/gui/presentation/commits.go` are easy to miss. The
model keeps each one as the code has it:

- An empty hash counts as diffed when `diffName` is also empty, because line
  23 compares `Sha == diffName`. `GetCommitListDisplayStrings` states `diffed`
  as exactly that equality.
- The second full-description column is the blue date whenever there is no
  action, even with extra info (lines 66-72). The extra info only ever
  prefixes the subject column.
- `actionColorMap` also maps the empty string to yellow (line 184).

## Model

| member | source | states |
|---|---|---|
| Strings.Split | pkg/gui/presentation/commits.go:160 | `strings.Split` yields at least one piece, and no piece contains the separator |
| Strings.JoinSplit | pkg/gui/presentation/commits.go:160 | joining the pieces of a split with the separator restores the template string |
| Strings.SplitJoin | pkg/gui/presentation/commits.go:160 | splitting a bar-join of separator-free items returns exactly those items |
| Strings.Join | pkg/gui/presentation/commits.go:120 | `strings.Join` of no items is the empty string and of one item is that item; `JoinSplit` and `SplitJoin` tie it to `Split` as its inverse |
| CommitTemplate.IsValid | pkg/gui/presentation/commits.go:140-157 | a key is valid exactly when it is one of `short-sha`, `message`, `author`; a valid key is non-empty and has no bar character |
| CommitTemplate.FilterAllowed | pkg/gui/presentation/commits.go:161-167 | the loop keeps only valid keys and never grows the list |
| CommitTemplate.FilterAllowedEmpty | pkg/gui/presentation/commits.go:161-168 | the loop keeps nothing exactly when no token is valid, which is when the fallback applies |
| CommitTemplate.ListOfAllowedParts | pkg/gui/presentation/commits.go:159-172 | the parsed template is never empty and holds only valid keys |
| CommitTemplate.ParseResult | pkg/gui/presentation/commits.go:159-172 | the parsed template is the filtered tokens when some token is valid; it is the `[short-sha, message]` fallback exactly when no token is valid |
| CommitTemplate.FilterAllowedAppend | pkg/gui/presentation/commits.go:161-167 | filtering distributes over concatenation, so the valid tokens are kept in input order |
| CommitTemplate.FilterAllowedSingle | pkg/gui/presentation/commits.go:163-166 | a single token is kept exactly when it is valid |
| CommitTemplate.FilterAllowedCounts | pkg/gui/presentation/commits.go:161-167 | each valid key occurs in the result as often as in the tokens (repeats kept); no invalid token occurs |
| CommitTemplate.FilterAllowedKeepsKeys | pkg/gui/presentation/commits.go:161-167 | a list of valid keys passes the filter unchanged |
| CommitTemplate.ParseIdempotent | pkg/gui/presentation/commits.go:159-172 | re-parsing the bar-join of a parsed template gives the same keys |
| CommitTemplate.ParseEmptyExample | pkg/gui/presentation/commits.go:168-170 | the empty template parses to `[short-sha, message]` |
| CommitTemplate.ParseBogusExample | pkg/gui/presentation/commits.go:168-170 | a template of only the unknown tokens `bogus` and `also-bogus` falls back to `[short-sha, message]` |
| CommitTemplate.ParseUnknownSingleExample | pkg/gui/presentation/commits.go:168-170 | the template `bogus`, a single unknown token, falls back to `[short-sha, message]` |
| CommitTemplate.ParseSwapExample | pkg/gui/presentation/commits.go:159-172 | the template `author` then `short-sha` parses to `[author, short-sha]`: template order is kept |
| CommitTemplate.ParseSingleKeyExample | pkg/gui/presentation/commits.go:159-172 | `message` parses to `[message]` alone, with no fallback keys added |
| CommitTemplate.ParseShaMessageExample | pkg/gui/presentation/commits.go:159-172 | the template `short-sha` then `message` parses to exactly those two keys |
| CommitTemplate.FilterOrderExample | pkg/gui/presentation/commits.go:161-167 | the tokens `short-sha`, `author`, `bogus`, `message` filter to `short-sha`, `author`, `message` |
| CommitTemplate.ParseOrderExample | pkg/gui/presentation/commits.go:159-172 | the template `short-sha` bar `author` bar `bogus` bar `message` parses to `[short-sha, author, message]`: the unknown token is dropped and the order is kept |
| CommitColors.StatusColor | pkg/gui/presentation/commits.go:43-57 | the status table as a two-way rule: red exactly for unpushed, yellow for pushed, green for merged, blue for rebasing or reflog, default for anything else |
| CommitColors.IsCherryPicked | pkg/gui/presentation/commits.go:61 | a hash missing from the map, or mapped to false, is not cherry-picked |
| CommitColors.ShaColor | pkg/gui/presentation/commits.go:43-63 | diffed always wins; copied applies exactly when the commit is not diffed but is cherry-picked; otherwise the status table decides (lines 92-112 repeat this) |
| CommitColors.ActionColorMap | pkg/gui/presentation/commits.go:174-187 | total: cyan exactly for pick, red for drop, green for edit, magenta for fixup, yellow for every other string |
| CommitRows.FullDescriptionDisplayStrings | pkg/gui/presentation/commits.go:30-77 | exactly 4 columns: the coloured short hash; the action when there is one, else the blue date; the yellow truncated author; the subject, with the extra-info label in front exactly when there is no action but extra info |
| CommitRows.FullDescriptionSubjectText | pkg/gui/presentation/commits.go:65-76 | the subject column reads `extraInfo + " " + name` when there is no action but extra info, else just `name` |
| CommitRows.AppendColumns | pkg/gui/presentation/commits.go:123-134 | for valid keys the loop yields one column per key, column i being the one key i names; it never yields more columns than keys |
| CommitRows.PrependToFirst | pkg/gui/presentation/commits.go:135 | prefixing the first column changes only column 0 and keeps the column count |
| CommitRows.DisplayStringsForCommit | pkg/gui/presentation/commits.go:79-138 | as many columns as parsed keys, so `parts[0]` exists; column i is what key i names; an action label goes only before column 0; tags go only before message columns |
| CommitRows.TemplateActionPrefix | pkg/gui/presentation/commits.go:114-135 | with an action, column 0 reads `withPadding(action, 7) + " "` before its own text, and no column carries tags |
| CommitRows.TemplateTagsPrefix | pkg/gui/presentation/commits.go:114-135 | with no action but some tags, each message column reads the tags joined by single spaces, a space, then the subject; other columns have no prefix |
| CommitRows.TemplateNoPrefix | pkg/gui/presentation/commits.go:114-135 | with no action and no tags, every column is exactly what its key names |
| CommitRows.PickScenario | pkg/gui/presentation/commits.go:114-135 | a `pick` commit under the template `short-sha` then `message`: two columns, the first being cyan padded `pick`, a space, then the short hash |
| CommitRows.ActionShaMessageRow | pkg/gui/presentation/commits.go:114-135 | under the keys short-sha then message, a commit with an action has the action label before the hash; the subject is bare |
| CommitRows.TagsScenario | pkg/gui/presentation/commits.go:114-135 | a commit tagged `v1.0`, `release` with no action, under `message`: one column, bold magenta `v1.0 release`, a space, then the subject |
| CommitRows.ReleaseTagsLabel | pkg/gui/presentation/commits.go:118-120 | the tags `v1.0`, `release` join to `v1.0 release` and label the subject in bold magenta followed by a space |
| CommitRows.TagsOnlyRow | pkg/gui/presentation/commits.go:114-135 | under a template of `message` alone, a commit with tags and no action has the single column tags label then subject |
| CommitList.DisplayRow | pkg/gui/presentation/commits.go:15-20 | the chosen layout gives 4 columns in full-description mode, one per parsed key otherwise, and never an empty row |
| CommitList.GetCommitListDisplayStrings | pkg/gui/presentation/commits.go:12-28 | one row per commit, in order; row i is commit i's row in the chosen layout, diffed exactly when its hash equals `diffName` |
| CommitList.RowShaColumn | pkg/gui/presentation/commits.go:127-135 | a row's hash column ends with the short hash in the colour `ShaColor` picks, even after the action label is put in front |
| CommitList.ShaColumnsFollowPriority | pkg/gui/presentation/commits.go:22-24 | in the batch output every hash column is in the diffed colour exactly for the diffed commit; it is copied exactly for a cherry-picked commit that is not diffed; otherwise it follows the status table |

## Left out

- Terminal escape codes and the colour library are not modelled. A style is an
  abstract value and `Sprint` builds a segment.
- The theme's configurable colours are the abstract styles `DefaultText` and
  `DiffTerminal`.
- `Commit.ShortSha`, `utils.UnixToDate`, `utils.TruncateWithEllipsis` and
  `utils.WithPadding` are not part of this model. They are parameters of
  `External.Helpers`, and nothing is claimed about their results. In
  particular, the 17-character ellipsis truncation and the 7-wide padding are
  only passed as the arguments 17 and 7.
- `utils.ColoredStringDirect` is not part of this model. It is taken to colour
  its whole text in the given style, like `Sprint`.
- Date formatting depends on time zone and locale, and lies outside the
  formatter.
- Concurrent changes to the commit list or the cherry-pick map are the
  caller's concern. The model reads an immutable snapshot.
- Go's `int64` timestamp is an unbounded `int`. The formatter only hands it to
  `UnixToDate`.
