/**
 Helpers whose code lies outside the formatter: the commit's short hash, the
 date rendering of a timestamp, ellipsis truncation and padding. They are
 supplied by the caller as plain functions, and nothing is assumed about what
 they return.
 */
module External {
  import opened Models

  datatype Helpers = Helpers(
    shortSha: Commit -> string,                 // Commit.ShortSha
    unixToDate: int -> string,                  // utils.UnixToDate
    truncateWithEllipsis: (string, int) -> string,  // utils.TruncateWithEllipsis
    withPadding: (string, int) -> string)       // utils.WithPadding
}
