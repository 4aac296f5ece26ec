/** truncate_text from the frontend helpers: long text cut for table cells. */
module FrontendUtils {
  import opened Results

  /** Python's `s[:n]`: a negative `n` counts from the end, and the bound is clamped to the
      string. */
  function PyPrefix(s: string, n: int): (r: string)
    ensures 0 <= n <= |s| ==> r == s[..n]
    ensures n > |s| ==> r == s
    ensures n < 0 ==> r == s[..if |s| + n < 0 then 0 else |s| + n]
  {
    if n >= 0 then (if n <= |s| then s[..n] else s)
    else s[..if |s| + n < 0 then 0 else |s| + n]
  }

  /** truncate_text(text, length): text longer than `length` is cut to its first `length`
      characters followed by "..."; anything else, `None` and the empty text included, comes
      back as it was. */
  function TruncateText(text: Option<string>, length: int := 50): (r: Option<string>)
    ensures text.None? || text.value == [] || |text.value| <= length ==> r == text
    ensures text.Some? && text.value != [] && |text.value| > length ==>
      r == Some(PyPrefix(text.value, length) + "...")
  {
    if text.Some? && text.value != [] && |text.value| > length then
      Some(PyPrefix(text.value, length) + "...")
    else text
  }

  /** With a non-negative length, a truncated text is exactly `length + 3` long, starts with the
      first `length` characters and ends in "..."; an untruncated one is at most `length` long. */
  lemma TruncateShape(text: string, length: nat)
    ensures var r := TruncateText(Some(text), length).value;
      if |text| > length then
        |r| == length + 3 && r[..length] == text[..length] && r[length..] == "..."
      else r == text && |r| <= length
  {
  }

  /** Truncation never lengthens a text by more than the three dots, and never shortens it
      below `length` characters. */
  lemma TruncateBounds(text: string, length: nat)
    ensures var r := TruncateText(Some(text), length).value;
      |r| <= |text| + 3 && (|text| >= length ==> |r| >= length)
  {
    TruncateShape(text, length);
  }

  /** The default cut is at 50 characters. */
  lemma TruncateDefault(text: string)
    requires |text| > 50
    ensures TruncateText(Some(text)) == Some(text[..50] + "...")
  {
  }
}
