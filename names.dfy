/** File names: the upload-time split into name and extension, and its inverse `real_name`. */
module Names {
  import opened Basics

  /** The index of the last '.' in s, if there is one. */
  function LastDot(s: string): (r: Option<nat>)
    ensures r.Some? ==> r.value < |s| && s[r.value] == '.'
    ensures r.Some? ==> forall j :: r.value < j < |s| ==> s[j] != '.'
    ensures r.None? ==> forall j :: 0 <= j < |s| ==> s[j] != '.'
  {
    if |s| == 0 then None
    else if s[|s| - 1] == '.' then Some(|s| - 1)
    else LastDot(s[..|s| - 1])
  }

  predicate DotFree(s: string)
  {
    forall j :: 0 <= j < |s| ==> s[j] != '.'
  }

  /** `filename.rsplit('.', 1)`, then name = first part, extension = second part or None. */
  function SplitFilename(filename: string): (r: (string, Option<string>))
    ensures r.1.Some? ==> DotFree(r.1.value) && r.0 + "." + r.1.value == filename
    ensures r.1.None? <==> DotFree(filename)
    ensures r.1.None? ==> r.0 == filename
  {
    match LastDot(filename)
    case None => (filename, None)
    case Some(i) =>
      assert filename == filename[..i] + "." + filename[i + 1..];
      (filename[..i], Some(filename[i + 1..]))
  }

  /** `f'{name}.{extension}'`; Python renders a missing extension as the text None. */
  function RealName(name: string, extension: Option<string>): (r: string)
    ensures |r| > |name| && r[..|name|] == name && r[|name|] == '.'
    ensures extension.Some? ==> r[|name| + 1..] == extension.value
    ensures extension.None? ==> r[|name| + 1..] == "None"
  {
    name + "." + (match extension case Some(e) => e case None => "None")
  }

  /** Splitting an upload name and joining it back gives the upload name, when it has a dot. */
  lemma SplitThenJoin(filename: string)
    requires !DotFree(filename)
    ensures var (name, ext) := SplitFilename(filename); ext.Some? && RealName(name, ext) == filename
  {
  }

  /** Without a dot the extension is None, and real_name appends ".None". */
  lemma SplitThenJoinNoDot(filename: string)
    requires DotFree(filename)
    ensures RealName(SplitFilename(filename).0, SplitFilename(filename).1) == filename + ".None"
  {
  }

  /** Joining a name with a dot-free extension and splitting again recovers both parts. */
  lemma {:induction false} JoinThenSplit(name: string, ext: string)
    requires DotFree(ext)
    ensures SplitFilename(RealName(name, Some(ext))) == (name, Some(ext))
  {
    var f := RealName(name, Some(ext));
    assert f == name + "." + ext;
    assert f[|name|] == '.';
    assert f[..|name|] == name;
    assert f[|name| + 1..] == ext;
  }
}
