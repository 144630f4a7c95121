/** The two name tests the walk and the callback apply to an entry's base
    name: `strings.HasSuffix` and `filepath.Ext` on a slash-separated path. */
module FilePaths {

  predicate HasSuffix(s: string, suffix: string)
  {
    |suffix| <= |s| && s[|s| - |suffix|..] == suffix
  }

  /** `filepath.Ext`: the text from the last dot of the final path element,
      or "" when that element has no dot. The search runs from the end of the
      name and stops at the first '/'. */
  function Ext(path: string): (r: string)
    ensures HasSuffix(path, r)
    ensures r != "" ==> r[0] == '.' && forall k :: 0 < k < |r| ==> r[k] != '.' && r[k] != '/'
    ensures r == "" ==> forall k :: 0 <= k < |path| && path[k] == '.' ==> '/' in path[k + 1..]
  {
    if path == [] || path[|path| - 1] == '/' then ""
    else if path[|path| - 1] == '.' then "."
    else
      var r := Ext(path[..|path| - 1]);
      if r == "" then "" else r + [path[|path| - 1]]
  }

  /** Appending one character to a name: a dot restarts the extension, a
      slash ends it, any other character extends a non-empty one. */
  lemma ExtSnoc(s: string, c: char)
    ensures c == '.' ==> Ext(s + [c]) == "."
    ensures c != '.' && c != '/' ==> Ext(s + [c]) == if Ext(s) == "" then "" else Ext(s) + [c]
  {
    assert (s + [c])[..|s + [c]| - 1] == s;
  }

  /** The walk recurses into an entry exactly when its extension is ".zip",
      which is the same as the name ending in ".zip" (case-sensitive). */
  lemma ExtZipIff(name: string)
    ensures Ext(name) == ".zip" <==> HasSuffix(name, ".zip")
  {
    if HasSuffix(name, ".zip") {
      var stem := name[..|name| - 4];
      assert name == stem + "." + "z" + "i" + "p";
      ExtSnoc(stem, '.');
      ExtSnoc(stem + ".", 'z');
      ExtSnoc(stem + "." + "z", 'i');
      ExtSnoc(stem + "." + "z" + "i", 'p');
    }
  }
}
