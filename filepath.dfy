/**
 * Go's `filepath.Ext` on Windows, the platform whose `\` separator the
 * encoder hard-codes: the scan runs from the end of the path towards
 * its start, stops at a path separator, and returns the suffix that
 * begins at the first `.` it meets, or "" when there is none.
 */
module FilePath {

  /** `os.IsPathSeparator` on Windows. */
  predicate IsPathSeparator(c: char)
  {
    c == '/' || c == '\\'
  }

  /** No character of `s` is a path separator (a bare directory-entry name). */
  predicate NoSeparator(s: string)
  {
    forall i | 0 <= i < |s| :: !IsPathSeparator(s[i])
  }

  /** A well-formed extension: a dot followed by dot- and separator-free text. */
  predicate IsExtension(e: string)
  {
    |e| >= 1 && e[0] == '.' && forall j | 1 <= j < |e| :: e[j] != '.' && !IsPathSeparator(e[j])
  }

  /**
   * The loop of `filepath.Ext` at index `i`; everything after `i` has
   * already been scanned and holds neither a dot nor a separator.
   */
  function ExtFrom(path: string, i: int): (e: string)
    requires -1 <= i < |path|
    requires forall j | i < j < |path| :: path[j] != '.' && !IsPathSeparator(path[j])
    ensures |e| <= |path| && e == path[|path| - |e|..]
    ensures e != [] ==> IsExtension(e)
    ensures e == [] ==> forall j | 0 <= j <= i && path[j] == '.' ::
                          exists l | j < l <= i :: IsPathSeparator(path[l])
    decreases i + 1
  {
    if i < 0 || IsPathSeparator(path[i]) then ""
    else if path[i] == '.' then path[i..]
    else ExtFrom(path, i - 1)
  }

  /** `filepath.Ext(path)`. */
  function Ext(path: string): (e: string)
    ensures |e| <= |path| && e == path[|path| - |e|..]
    ensures e != [] ==> IsExtension(e)
    ensures e == [] ==> forall j | 0 <= j < |path| && path[j] == '.' ::
                          exists l | j < l < |path| :: IsPathSeparator(path[l])
  {
    ExtFrom(path, |path| - 1)
  }

  /** For a separator-free name, the extension is empty exactly when the name has no dot. */
  lemma ExtEmptyIffNoDot(name: string)
    requires NoSeparator(name)
    ensures Ext(name) == [] <==> '.' !in name
  {
    var e := Ext(name);
    if e != [] {
      assert name[|name| - |e|] == e[0] == '.';
    }
  }

  /** A path that ends in a well-formed extension has exactly that extension. */
  lemma ExtOfSuffix(p: string, x: string)
    requires IsExtension(x)
    ensures Ext(p + x) == x
  {
    var q := p + x;
    assert q[|p|] == '.';
    assert q[|p|..] == x;
  }

  /** The extension of a separator-free name begins at its last dot. */
  lemma ExtStartsAtLastDot(name: string)
    requires NoSeparator(name)
    requires '.' in name
    ensures var e := Ext(name);
            1 <= |e| && name[|name| - |e|] == '.' &&
            forall j | |name| - |e| < j < |name| :: name[j] != '.'
  {
    ExtEmptyIffNoDot(name);
    var e := Ext(name);
    forall j | |name| - |e| < j < |name|
      ensures name[j] != '.'
    {
      assert name[j] == e[j - (|name| - |e|)];
    }
  }
}
