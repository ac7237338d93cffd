/** The null/empty helpers of hudson.Util that the realm's constructor applies to its arguments. */
module HudsonUtil {
  import opened Nullable
  import opened JavaText

  /** `Util.fixNull`: null becomes the empty string. */
  function FixNull(s: Option<string>): (r: string)
    ensures s.Some? ==> r == s.value
    ensures r == [] <==> s.None? || s.value == []
  {
    s.GetOr([])
  }

  /** `Util.fixEmpty`: null and the empty string both become null. */
  function FixEmpty(s: Option<string>): (r: Option<string>)
    ensures r.None? <==> s.None? || s.value == []
    ensures r.Some? ==> r == s
  {
    if s.None? || s.value == [] then None else s
  }

  /** `Util.fixEmptyAndTrim`: trim, and make a blank string null. */
  function FixEmptyAndTrim(s: Option<string>): (r: Option<string>)
    ensures r.None? <==> s.None? || IsBlank(s.value)
    ensures r.Some? ==> r.value == Trim(s.value)
    ensures r.Some? ==> r.value != [] && !IsTrimmable(r.value[0]) && !IsTrimmable(r.value[|r.value| - 1])
  {
    if s.None? then None else FixEmpty(Some(Trim(s.value)))
  }

  /** Normalising an already normalised setting changes nothing. */
  lemma FixEmptyAndTrimIdempotent(s: Option<string>)
    ensures FixEmptyAndTrim(FixEmptyAndTrim(s)) == FixEmptyAndTrim(s)
  {
  }
}
