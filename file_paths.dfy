/**
 * The `System.IO.Path` decomposition the clip exporter uses to number a taken
 * asset path, with Windows separator rules: both '/' and '\' separate folders.
 */
module FilePaths {
  import opened Strings

  const Separators: set<char> := {'/', '\\'}

  /** `Path.GetFileName`: what follows the last separator. */
  function GetFileName(path: string): (r: string)
    ensures forall i :: 0 <= i < |r| ==> r[i] !in Separators
  {
    path[LastIndexOfAny(path, Separators) + 1..]
  }

  /** `Path.GetDirectoryName`: what precedes the last separator, or "" when there is none. */
  function GetDirectoryName(path: string): string {
    var k := LastIndexOfAny(path, Separators);
    if k < 0 then "" else path[..k]
  }

  /** `Path.GetFileNameWithoutExtension`: the file name cut before its last '.'. */
  function GetFileNameWithoutExtension(path: string): string {
    var name := GetFileName(path);
    var dot := LastIndexOfAny(name, {'.'});
    if dot < 0 then name else name[..dot]
  }

  /** `Path.GetExtension`: the file name from its last '.', or "" when there is none or it ends the name. */
  function GetExtension(path: string): string {
    var name := GetFileName(path);
    var dot := LastIndexOfAny(name, {'.'});
    if dot < 0 || dot == |name| - 1 then "" else name[dot..]
  }

  /**
   * A path `folder/stem.ext` whose stem and extension hold no separator splits back into
   * `folder`, `stem` and `.ext`.
   */
  lemma Decompose(folder: string, stem: string, ext: string)
    requires forall i :: 0 <= i < |stem| ==> stem[i] !in Separators
    requires forall i :: 0 <= i < |ext| ==> ext[i] !in Separators && ext[i] != '.'
    requires ext != []
    ensures GetDirectoryName(folder + "/" + stem + "." + ext) == folder
    ensures GetFileNameWithoutExtension(folder + "/" + stem + "." + ext) == stem
    ensures GetExtension(folder + "/" + stem + "." + ext) == "." + ext
  {
    var name := stem + ['.'] + ext;
    assert name == stem + "." + ext;
    NoSeparatorIn(stem, ext);
    var path := folder + ['/'] + name;
    assert path == folder + "/" + stem + "." + ext;
    LastOccurrence(folder, '/', name, Separators);
    assert GetFileName(path) == name;
    LastOccurrence(stem, '.', ext, {'.'});
  }

  lemma NoSeparatorIn(stem: string, ext: string)
    requires forall i :: 0 <= i < |stem| ==> stem[i] !in Separators
    requires forall i :: 0 <= i < |ext| ==> ext[i] !in Separators
    ensures forall i :: 0 <= i < |stem + ['.'] + ext| ==> (stem + ['.'] + ext)[i] !in Separators
  {
    var name := stem + ['.'] + ext;
    assert forall i :: |stem| < i < |name| ==> name[i] == ext[i - |stem| - 1];
  }

  /** In `front + [c] + back` with `c` in `chars` and no member of `chars` in `back`, the last one is at `|front|`. */
  lemma {:induction false} LastOccurrence(front: string, c: char, back: string, chars: set<char>)
    requires c in chars
    requires forall i :: 0 <= i < |back| ==> back[i] !in chars
    ensures LastIndexOfAny(front + [c] + back, chars) == |front|
    ensures (front + [c] + back)[..|front|] == front && (front + [c] + back)[|front| + 1..] == back
    decreases |back|
  {
    var s := front + [c] + back;
    if back != [] {
      var shorter := back[..|back| - 1];
      assert s[..|s| - 1] == front + [c] + shorter;
      assert s[|s| - 1] == back[|back| - 1];
      LastOccurrence(front, c, shorter, chars);
    }
  }
}
