/**
 The commit record the formatter reads. Only the fields the formatter touches
 are kept; the record is an immutable snapshot, so formatting cannot change it.
 */
module Models {

  datatype Commit = Commit(
    sha: string,
    name: string,
    status: string,      // "unpushed", "pushed", "merged", "rebasing", "reflog", or anything else
    action: string,      // interactive-rebase action such as "pick", or "" when none
    tags: seq<string>,
    extraInfo: string,
    author: string,
    unixTimestamp: int)
}
