/** The path-string helpers of Helpers.cpp. Paths are plain strings with '/' as
    the separator and '.' before the file type; nothing touches a file system. */
module Paths {
  import opened Common
  import opened Strings

  /** `s.rfind(c)` (also `find_last_of` with one character): the last index
      holding `c`. */
  function LastIndexOf(s: string, c: char): (r: Option<nat>)
    ensures r.None? <==> c !in s
    ensures r.Some? ==> r.value < |s| && s[r.value] == c && c !in s[r.value + 1..]
  {
    if |s| == 0 then None
    else if s[|s| - 1] == c then
      assert s[|s|..] == [];
      Some(|s| - 1)
    else
      match LastIndexOf(s[..|s| - 1], c)
      case None =>
        assert s == s[..|s| - 1] + [s[|s| - 1]];
        None
      case Some(k) =>
        assert s[k + 1..] == s[..|s| - 1][k + 1..] + [s[|s| - 1]];
        Some(k)
  }

  /** The file name: whatever follows the last '/', or the whole path when there
      is no '/'. */
  function StripLeadingDirectories(filePath: string): (r: string)
    ensures '/' !in r
    ensures |r| <= |filePath| && r == filePath[|filePath| - |r|..]
    ensures '/' in filePath ==> |r| < |filePath| && filePath[|filePath| - |r| - 1] == '/'
    ensures '/' !in filePath ==> r == filePath
  {
    match LastIndexOf(filePath, '/')
    case Some(finalSlash) => filePath[finalSlash + 1..]
    case None => filePath
  }

  predicate EndsWithSlash(s: string)
  {
    |s| > 0 && s[|s| - 1] == '/'
  }

  /** The directory part, up to and including the last '/'. A path without '/',
      or one that already ends in '/', is returned as it is. */
  function ExtractDirectoryString(filePath: string): (r: string)
    ensures '/' !in filePath || EndsWithSlash(filePath) ==> r == filePath
    ensures '/' in filePath && !EndsWithSlash(filePath) ==>
      0 < |r| < |filePath| && r == filePath[..|r|] && r[|r| - 1] == '/' && '/' !in filePath[|r|..]
  {
    match LastIndexOf(filePath, '/')
    case Some(finalSlash) =>
      if finalSlash != |filePath| - 1 then filePath[..finalSlash + 1] else filePath
    case None => filePath
  }

  /** Every path with a '/' is its directory part followed by its file name. */
  lemma DirectoryThenFileName(filePath: string)
    requires '/' in filePath
    ensures ExtractDirectoryString(filePath) + StripLeadingDirectories(filePath) == filePath
  {
    var k := LastIndexOf(filePath, '/').value;
    if k == |filePath| - 1 {
      assert StripLeadingDirectories(filePath) == [];
    } else {
      assert filePath[..k + 1] + filePath[k + 1..] == filePath;
    }
  }

  /** The file type: whatever follows the last '.', or "" when there is no '.'. */
  function ExtractFileType(filePath: string): (r: string)
    ensures '.' !in r
    ensures '.' !in filePath ==> r == []
    ensures '.' in filePath ==>
      |r| < |filePath| && r == filePath[|filePath| - |r|..] && filePath[|filePath| - |r| - 1] == '.'
  {
    match LastIndexOf(filePath, '.')
    case Some(dotPos) => filePath[dotPos + 1..]
    case None => []
  }

  /** The first piece of `s` split on `d`: from the first non-delimiter to the
      next delimiter. */
  lemma SplitFirstPiece(s: string, d: char)
    requires exists k :: 0 <= k < |s| && s[k] != d
    ensures |Split(s, d)| > 0
    ensures var a := SkipDelims(s, d, 0);
      a < |s| && Split(s, d)[0] == s[a..ScanToDelim(s, d, a)]
  {
    var a := SkipDelims(s, d, 0);
    var k :| 0 <= k < |s| && s[k] != d;
    assert a <= k;
  }

  /** The first '.'-separated piece of the path; leading dots are skipped, as
      Split drops empty pieces. `Split(filePath, '.')[0]` is read
      without a check, so a path that contains a '.' must also contain some
      other character. */
  function StripFileType(filePath: string): (r: string)
    requires '.' in filePath ==> exists k :: 0 <= k < |filePath| && filePath[k] != '.'
    ensures '.' !in filePath ==> r == filePath
    ensures '.' in filePath ==>
      var a := SkipDelims(filePath, '.', 0);
      a < |filePath| && r == filePath[a..ScanToDelim(filePath, '.', a)] && |r| > 0
  {
    if '.' in filePath then
      SplitFirstPiece(filePath, '.');
      Split(filePath, '.')[0]
    else
      filePath
  }

  /** Backslashes become forward slashes; every other character is kept. */
  function ReplaceBackSlashesWithForward(str: string): (r: string)
    ensures |r| == |str|
    ensures forall k :: 0 <= k < |str| ==> r[k] == (if str[k] == '\\' then '/' else str[k])
  {
    seq(|str|, k requires 0 <= k < |str| => if str[k] == '\\' then '/' else str[k])
  }
}
