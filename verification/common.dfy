/** Shared vocabulary: optional values, bytes, and the string prefix/suffix tests
    the downloader applies to URLs and paths. */
module Common {

  /** `None` stands for Python's `None` (a missing key, a JSON `null`, an exception
      swallowed by the caller). */
  datatype Option<+T> = None | Some(value: T)

  /** Python's `str(v)` on a string or `None`, as an f-string also renders it. */
  function PyStr(v: Option<string>): string
  {
    match v
    case None => "None"
    case Some(s) => s
  }

  newtype byte = x: int | 0 <= x < 256

  type Bytes = seq<byte>

  /** Python's `s.startswith(prefix)`. */
  predicate StartsWith(s: string, prefix: string)
  {
    |prefix| <= |s| && s[..|prefix|] == prefix
  }

  /** Python's `s.endswith(suffix)`. */
  predicate EndsWith(s: string, suffix: string)
  {
    |suffix| <= |s| && s[|s| - |suffix|..] == suffix
  }
}
