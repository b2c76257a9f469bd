/** The parts of `pathlib.PurePath` the pipeline reads: `name`, `suffix`
    and `stem`, on a path string that is already normalised (no trailing
    separator), as `Path.resolve()` returns it. */
module Paths {
  import opened Outcomes
  import opened Strings

  /** `Path(p).name`: everything after the last `/`. */
  function Name(p: string): (r: string)
    ensures EndsWith(p, r)
    ensures '/' !in r
    ensures |r| < |p| ==> p[|p| - |r| - 1] == '/'
  {
    var k := TrailLen(p, c => c != '/');
    p[|p| - k..]
  }

  /** `s.rfind(c)`: the index of the last `c`, if any. */
  function LastIndexOf(s: string, c: char): (r: Option<nat>)
    ensures r.Some? ==> r.value < |s| && s[r.value] == c
                        && forall j :: r.value < j < |s| ==> s[j] != c
    ensures r.None? ==> c !in s
  {
    var k := TrailLen(s, x => x != c);
    if k == |s| then
      assert forall j :: 0 <= j < |s| ==> s[j] != c;
      None
    else Some(|s| - 1 - k)
  }

  /** Where `suffix` and `stem` split a name: the last dot, when it is
      neither the first nor the last character. */
  function DotIndex(name: string): (r: Option<nat>)
    ensures r.Some? ==> 0 < r.value < |name| - 1 && name[r.value] == '.'
  {
    match LastIndexOf(name, '.')
    case Some(i) => if 0 < i < |name| - 1 then Some(i) else None
    case None => None
  }

  /** `Path(p).suffix` of a bare name: from the last dot on, or empty. */
  function SuffixOfName(name: string): (r: string)
    ensures r == "" || (r[0] == '.' && '.' !in r[1..] && |r| >= 2)
    ensures EndsWith(name, r)
  {
    match DotIndex(name)
    case Some(i) =>
      name[i..]
    case None => ""
  }

  /** `Path(p).stem` of a bare name: the name without its suffix. */
  function StemOfName(name: string): (r: string)
    ensures StartsWith(name, r)
  {
    match DotIndex(name)
    case Some(i) => name[..i]
    case None => name
  }

  /** The stem and the suffix put back together are the name. */
  lemma StemSuffix(name: string)
    ensures StemOfName(name) + SuffixOfName(name) == name
  {
  }

  function Suffix(p: string): string {
    SuffixOfName(Name(p))
  }

  function Stem(p: string): string {
    StemOfName(Name(p))
  }
}
