/** The length limits the program puts on the messages and table cells it shows. */
module Truncation {
  import opened PyStr

  /** A status error message longer than 100 characters keeps its first 97 and gets "..." appended. */
  function TruncateStatus(msg: string): (r: string)
    ensures |r| <= 100
    ensures |msg| <= 100 ==> r == msg
    ensures |msg| > 100 ==> |r| == 100 && r[..97] <= msg && EndsWith(r, "...")
  {
    if |msg| > 100 then msg[..97] + "..." else msg
  }

  lemma TruncateStatusIdempotent(msg: string)
    ensures TruncateStatus(TruncateStatus(msg)) == TruncateStatus(msg)
  {
  }

  /** The status line shown for an error: "Status: Error - " and the truncated message. */
  function StatusError(msg: string): (r: string)
    ensures |r| <= 16 + 100
    ensures StartsWith(r, "Status: Error - ")
    ensures |msg| <= 100 ==> r == "Status: Error - " + msg
    ensures |msg| > 100 ==> r == "Status: Error - " + msg[..97] + "..."
  {
    "Status: Error - " + TruncateStatus(msg)
  }

  /** `str(e)[:50]`: the excerpt of an exception text embedded in a translation failure message. */
  function Excerpt(err: string): (r: string)
    ensures |r| <= 50 && r <= err
    ensures |err| <= 50 ==> r == err
    ensures |err| > 50 ==> r == err[..50]
  {
    Prefix(err, 50)
  }

  /** A history cell longer than 30 characters shows its first 30 followed by "...". */
  function Cell(text: string): (r: string)
    ensures |r| <= 33
    ensures |text| <= 30 ==> r == text
    ensures |text| > 30 ==> |r| == 33 && r[..30] <= text && EndsWith(r, "...")
  {
    if |text| > 30 then text[..30] + "..." else text
  }
}
