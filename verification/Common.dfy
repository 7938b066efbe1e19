/** What several modules share: levels, the format mode, and small parts of C's string
  * handling. */
module Common {

  datatype Option<+T> = None | Some(value: T)

  /** `hx_clog_level_t`. */
  const TRACE := 0
  const FATAL := 5
  const OFF := 6

  /** The terminator of C strings. */
  const NUL := '\0'

  /** `hx_clog_format_mode_t`. */
  datatype FormatMode = PatternMode | JsonMode

  /** `strrchr(name, '.')`: the position of the last dot. */
  function LastDot(name: string): (r: Option<nat>)
    ensures r.Some? ==> r.value < |name| && name[r.value] == '.'
    ensures r.Some? ==> forall k :: r.value < k < |name| ==> name[k] != '.'
    ensures r.None? ==> forall k :: 0 <= k < |name| ==> name[k] != '.'
  {
    if name == "" then None
    else
      var n := |name| - 1;
      if name[n] == '.' then Some(n) else LastDot(name[..n])
  }

  /** At most the first `n` characters. */
  function Take(s: string, n: nat): string {
    if |s| <= n then s else s[..n]
  }

  predicate StartsWith(s: string, prefix: string) {
    |prefix| <= |s| && s[..|prefix|] == prefix
  }
}
