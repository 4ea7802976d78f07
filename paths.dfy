/** `path.extname` and `path.basename(name, ext)` of Node's POSIX path module, applied to
    directory entry names (which never contain a separator). */
module PathNames {
  import opened Wrappers
  import opened Strings

  /** Index of the last '.' in `s`, if any. */
  function LastDot(s: string): (r: Option<nat>)
    ensures r.Some? ==> r.value < |s| && s[r.value] == '.'
    ensures r.Some? ==> forall k :: r.value < k < |s| ==> s[k] != '.'
    ensures r.None? ==> forall k :: 0 <= k < |s| ==> s[k] != '.'
  {
    if s == [] then None
    else if s[|s| - 1] == '.' then Some(|s| - 1)
    else LastDot(s[..|s| - 1])
  }

  /** `path.extname(name)`: from the last '.' to the end, unless that dot is the first
      character of the name (".bashrc") or the name is "..". */
  function ExtName(name: string): (e: string)
    ensures e == "" || (e[0] == '.' && |e| < |name| && EndsWith(name, e))
    ensures forall k :: 1 <= k < |e| ==> e[k] != '.'
  {
    match LastDot(name)
    case None => ""
    case Some(d) => if d == 0 || name == ".." then "" else name[d..]
  }

  /** A name made of a non-empty stem and a dotted suffix has that suffix as its extension. */
  lemma ExtNameOfJoin(stem: string, ext: string)
    requires stem != [] && ext != [] && ext[0] == '.'
    requires forall k :: 1 <= k < |ext| ==> ext[k] != '.'
    requires stem + ext != ".."
    ensures ExtName(stem + ext) == ext
  {
    var name := stem + ext;
    var d := |stem|;
    assert name[d] == '.';
    assert forall k :: d < k < |name| ==> name[k] != '.' by {
      forall k | d < k < |name| ensures name[k] != '.' {
        assert name[k] == ext[k - d];
      }
    }
    var ld := LastDot(name);
    assert ld.Some? && ld.value == d;
    assert name[d..] == ext;
  }

  /** `path.basename(name, suffix)`: the name with `suffix` removed when it ends with it
      (the comparison is case-sensitive); the whole name is returned otherwise, and
      the empty string when the name is the suffix itself. */
  function BaseName(name: string, suffix: string): (b: string)
    ensures EndsWith(name, suffix) && suffix != [] ==> name == b + suffix
    ensures !EndsWith(name, suffix) || suffix == [] ==> b == name
  {
    if suffix != [] && |suffix| <= |name| then
      if suffix == name then ""
      else if EndsWith(name, suffix) then name[..|name| - |suffix|]
      else name
    else name
  }
}
