/**
 * The animation clip exporter: copies every clip of a model file that an animator
 * controller plays into its own `.anim` asset under an export folder, naming each file
 * after the clip with invalid file-name characters replaced and a number appended
 * when the path is taken.
 */
module ClipExport {
  import opened Wrappers
  import opened Strings
  import opened FilePaths
  import opened Animator

  /**
   * The project's asset database: the folders that exist and the paths that are taken
   * (a file on disk or a loaded asset at that path).
   */
  class AssetDatabase {
    var folders: set<string>
    var assets: set<string>

    constructor (folders: set<string>, assets: set<string>)
      ensures this.folders == folders && this.assets == assets
    {
      this.folders := folders;
      this.assets := assets;
    }

    /** `AssetDatabase.CreateFolder(parent, name)`: the folder `parent/name` now exists. */
    method CreateFolder(parent: string, name: string)
      modifies this
      ensures folders == old(folders) + {parent + "/" + name} && assets == old(assets)
    {
      folders := folders + {parent + "/" + name};
    }

    /** `AssetDatabase.CreateAsset(asset, path)`: the path is now taken. */
    method CreateAsset(path: string)
      modifies this
      ensures assets == old(assets) + {path} && folders == old(folders)
    {
      assets := assets + {path};
    }
  }

  // ---------------------------------------------------------------------------
  // File names

  /** `Path.GetInvalidFileNameChars()` on Windows, in the order .NET lists them. */
  const InvalidFileNameChars: seq<char> :=
    ['"', '<', '>', '|'] + seq(32, n requires 0 <= n < 32 => n as char) + [':', '*', '?', '\\', '/']

  /** The characters a file name may not hold: the control characters and `" < > | : * ? \ /`. */
  predicate IsInvalidFileNameChar(c: char) {
    c < ' ' || c in {'"', '<', '>', '|', ':', '*', '?', '\\', '/'}
  }

  lemma InvalidFileNameCharsMembers(c: char)
    ensures c in InvalidFileNameChars <==> IsInvalidFileNameChar(c)
  {
    var controls := seq(32, n requires 0 <= n < 32 => n as char);
    assert InvalidFileNameChars == ['"', '<', '>', '|'] + controls + [':', '*', '?', '\\', '/'];
    if c < ' ' {
      assert controls[c as int] == c;
    }
  }

  /** Every invalid character of `name` replaced by '_'. */
  function ReplaceInvalid(name: string): (r: string)
    ensures |r| == |name|
    ensures forall i :: 0 <= i < |name| ==> r[i] == (if IsInvalidFileNameChar(name[i]) then '_' else name[i])
  {
    seq(|name|, i requires 0 <= i < |name| => if IsInvalidFileNameChar(name[i]) then '_' else name[i])
  }

  /**
   * The file name a clip is exported under: invalid characters replaced by '_', white
   * space trimmed from both ends, and "anim_clip" when nothing is left.
   */
  function SanitizedName(name: string): (r: string)
    ensures r != [] && !IsWhiteSpace(r[0]) && !IsWhiteSpace(r[|r| - 1])
    ensures forall i :: 0 <= i < |r| ==> !IsInvalidFileNameChar(r[i])
    ensures r == "anim_clip" || forall i :: 0 <= i < |r| ==> r[i] == '_' || r[i] in name
  {
    var trimmed := Trim(ReplaceInvalid(name));
    if trimmed == [] then "anim_clip" else trimmed
  }

  /** A name that is already a valid, trimmed, non-empty file name is kept as it is. */
  lemma SanitizedKeepsValidName(name: string)
    requires name != [] && !IsWhiteSpace(name[0]) && !IsWhiteSpace(name[|name| - 1])
    requires forall i :: 0 <= i < |name| ==> !IsInvalidFileNameChar(name[i])
    ensures SanitizedName(name) == name
  {
    assert ReplaceInvalid(name) == name;
    TrimFixed(name);
  }

  /** Sanitizing twice is sanitizing once. */
  lemma SanitizedIdempotent(name: string)
    ensures SanitizedName(SanitizedName(name)) == SanitizedName(name)
  {
    SanitizedKeepsValidName(SanitizedName(name));
  }

  /** A sanitized name holds no folder separator, so it names a file directly inside the export folder. */
  lemma SanitizedHasNoSeparator(name: string)
    ensures forall i :: 0 <= i < |SanitizedName(name)| ==> SanitizedName(name)[i] !in Separators
  {
  }

  /**
   * `SanitizeFileName`: every character is compared against the invalid list and
   * appended, or '_' in its place; the result is then trimmed.
   */
  method SanitizeFileName(name: string) returns (r: string)
    ensures r == SanitizedName(name)
  {
    var sb := "";
    for k := 0 to |name|
      invariant |sb| == k
      invariant forall i :: 0 <= i < k ==> sb[i] == ReplaceInvalid(name)[i]
    {
      var c := name[k];
      var isInvalid := false;
      var j := 0;
      while j < |InvalidFileNameChars|
        invariant 0 <= j <= |InvalidFileNameChars|
        invariant c !in InvalidFileNameChars[..j]
      {
        if c == InvalidFileNameChars[j] {
          isInvalid := true;
          break;
        }
        j := j + 1;
      }
      assert isInvalid <==> c in InvalidFileNameChars;
      InvalidFileNameCharsMembers(c);
      sb := sb + [if isInvalid then '_' else c];
    }
    assert sb == ReplaceInvalid(name);
    r := Trim(sb);
    if r == [] {
      r := "anim_clip";
    }
  }

  // ---------------------------------------------------------------------------
  // Asset paths

  /** The `idx`-th alternative to a taken path: `dir/name_idx.ext`, with '\' in the folder turned to '/'. */
  function Candidate(path: string, idx: nat): string {
    ReplaceChar(GetDirectoryName(path), '\\', '/') + "/" + GetFileNameWithoutExtension(path) + "_" +
    NatToString(idx) + GetExtension(path)
  }

  /** Different numbers give different candidates. */
  lemma CandidatesDiffer(path: string, a: nat, b: nat)
    requires a != b
    ensures Candidate(path, a) != Candidate(path, b)
  {
    var p := ReplaceChar(GetDirectoryName(path), '\\', '/') + "/" + GetFileNameWithoutExtension(path) + "_";
    var q := GetExtension(path);
    if Candidate(path, a) == Candidate(path, b) {
      assert p + NatToString(a) + q == p + NatToString(b) + q;
      Unframe(p, NatToString(a), NatToString(b), q);
      NatToStringInjective(a, b);
    }
  }

  /** The candidates for the export path `folder/stem.anim` are `folder/stem_idx.anim`. */
  lemma ExportCandidate(folder: string, stem: string, idx: nat)
    requires forall i :: 0 <= i < |stem| ==> stem[i] !in Separators
    ensures Candidate(folder + "/" + stem + ".anim", idx) ==
            ReplaceChar(folder, '\\', '/') + "/" + stem + "_" + NatToString(idx) + ".anim"
  {
    var path := folder + "/" + stem + ".anim";
    assert path == folder + "/" + stem + "." + "anim";
    Decompose(folder, stem, "anim");
    var dir, name, ext := GetDirectoryName(path), GetFileNameWithoutExtension(path), GetExtension(path);
    assert dir == folder && name == stem && ext == ".anim";
  }

  /**
   * `r` is the path `GetUniqueAssetPath` picks for `path` when the paths in `taken` are
   * taken: `path` itself when it is free, otherwise the first numbered alternative
   * after a run of taken ones.
   */
  ghost predicate NextFree(path: string, r: string, taken: set<string>) {
    && (path !in taken ==> r == path)
    && (path in taken ==> exists k: nat :: k >= 1 && r == Candidate(path, k) &&
                                        forall j: nat :: 1 <= j < k ==> Candidate(path, j) in taken)
  }

  /**
   * `GetUniqueAssetPath`: the path itself when it is free, otherwise the first free
   * candidate numbered from 1.
   */
  method GetUniqueAssetPath(db: AssetDatabase, path: string) returns (r: string)
    ensures r !in db.assets && NextFree(path, r, db.assets)
  {
    if path !in db.assets {
      return path;
    }
    var dir := ReplaceChar(GetDirectoryName(path), '\\', '/');
    var filename := GetFileNameWithoutExtension(path);
    var ext := GetExtension(path);
    var idx := 1;
    var candidate := dir + "/" + filename + "_" + NatToString(idx) + ext;
    idx := idx + 1;
    ghost var remaining := db.assets;
    while candidate in db.assets
      invariant idx >= 2 && candidate == Candidate(path, idx - 1)
      invariant forall j: nat :: 1 <= j < idx - 1 ==> Candidate(path, j) in db.assets
      invariant remaining <= db.assets
      invariant forall j: nat :: j >= idx - 1 && Candidate(path, j) in db.assets ==> Candidate(path, j) in remaining
      decreases remaining
    {
      forall j: nat | j >= idx
        ensures Candidate(path, j) != candidate
      {
        CandidatesDiffer(path, j, idx - 1);
      }
      remaining := remaining - {candidate};
      candidate := dir + "/" + filename + "_" + NatToString(idx) + ext;
      idx := idx + 1;
    }
    r := candidate;
  }

  // ---------------------------------------------------------------------------
  // Folders

  /** The folders `p0/p1`, `p0/p1/p2`, …, `p0/…/pn` that EnsureFolderExists creates when missing. */
  function FolderChain(parts: seq<string>): set<string>
    requires |parts| >= 1
  {
    ChainTo(parts, |parts|)
  }

  /** The first `n - 1` folders of the chain: `p0/p1` down to `p0/…/p(n-1)`. */
  function ChainTo(parts: seq<string>, n: nat): set<string>
    requires 1 <= n <= |parts|
  {
    set i | 2 <= i <= n :: Join(parts[..i], '/')
  }

  lemma ChainToStep(parts: seq<string>, n: nat)
    requires 1 <= n < |parts|
    ensures ChainTo(parts, n + 1) == ChainTo(parts, n) + {Join(parts[..n + 1], '/')}
  {
  }

  /** A path that starts with "Assets" splits into at least one non-empty piece. */
  lemma AssetsPathHasParts(folderPath: string)
    requires StartsWith(folderPath, "Assets")
    ensures |SplitRemoveEmpty(folderPath, '/')| >= 1
  {
    assert folderPath[0] == 'A';
    SplitFirstPiece(folderPath, '/');
    var pieces := Split(folderPath, '/');
    assert pieces[0] in pieces;
  }

  /**
   * A folder path with at least two pieces and no empty piece (no leading, trailing or
   * doubled '/') is the last folder of its chain.
   */
  lemma ChainEndsAtFolder(folderPath: string)
    requires |Split(folderPath, '/')| >= 2
    requires forall i :: 0 <= i < |Split(folderPath, '/')| ==> Split(folderPath, '/')[i] != []
    ensures folderPath in FolderChain(SplitRemoveEmpty(folderPath, '/'))
  {
    var parts := Split(folderPath, '/');
    NonEmptyKeepsAll(parts);
    JoinSplit(folderPath, '/');
    assert parts[..|parts|] == parts;
  }

  /**
   * `EnsureFolderExists`: nothing happens when the folder exists; otherwise each folder
   * of the chain from the first piece down is created when missing. The source indexes
   * the first piece unguarded, so the path must be an existing folder or have a piece.
   */
  method EnsureFolderExists(db: AssetDatabase, folderPath: string)
    requires folderPath in db.folders || |SplitRemoveEmpty(folderPath, '/')| >= 1
    modifies db
    ensures db.assets == old(db.assets)
    ensures old(folderPath in db.folders) ==> db.folders == old(db.folders)
    ensures !old(folderPath in db.folders) ==>
              db.folders == old(db.folders) + FolderChain(SplitRemoveEmpty(folderPath, '/'))
  {
    if folderPath in db.folders {
      return;
    }
    var parts := SplitRemoveEmpty(folderPath, '/');
    var cur := parts[0];
    assert parts[..1] == [parts[0]];
    for i := 1 to |parts|
      invariant cur == Join(parts[..i], '/')
      invariant db.assets == old(db.assets)
      invariant db.folders == old(db.folders) + ChainTo(parts, i)
    {
      var next := cur + "/" + parts[i];
      assert parts[..i + 1] == parts[..i] + [parts[i]];
      JoinAppend(parts[..i], parts[i], '/');
      ChainToStep(parts, i);
      if next !in db.folders {
        db.CreateFolder(cur, parts[i]);
      }
      cur := next;
    }
  }

  // ---------------------------------------------------------------------------
  // The model file's clips

  /** Clips whose name holds this marker are Unity's preview copies and are never exported. */
  const PreviewMarker: string := "__preview__"

  /** No clip asset before index `i` is named `name`. */
  ghost predicate NoEarlierClip(assets: seq<Asset>, i: nat, name: string) {
    forall j :: 0 <= j < i && j < |assets| && assets[j].ClipAsset? ==> assets[j].clip.name != name
  }

  /**
   * The clip map of a model file: keyed by the name of every clip that is not a preview,
   * each name mapped to the FIRST clip that has it.
   */
  ghost predicate IsFbxClipMap(assets: seq<Asset>, fbxClips: map<string, Clip>) {
    && (forall name :: name in fbxClips <==>
          exists i :: 0 <= i < |assets| && assets[i].ClipAsset? && assets[i].clip.name == name &&
                      !Contains(name, PreviewMarker))
    && (forall name :: name in fbxClips ==>
          exists i :: 0 <= i < |assets| && assets[i] == ClipAsset(fbxClips[name]) &&
                      fbxClips[name].name == name && NoEarlierClip(assets, i, name))
  }

  /** One loop step: a clip that is not a preview is added unless its name is already a key. */
  function AddFirst(fbxClips: map<string, Clip>, asset: Asset): map<string, Clip> {
    if asset.ClipAsset? && !Contains(asset.clip.name, PreviewMarker) && asset.clip.name !in fbxClips
    then fbxClips[asset.clip.name := asset.clip]
    else fbxClips
  }

  lemma AddFirstKeys(assets: seq<Asset>, fbxClips: map<string, Clip>)
    requires |assets| > 0 && IsFbxClipMap(assets[..|assets| - 1], fbxClips)
    ensures var added := AddFirst(fbxClips, assets[|assets| - 1]);
            forall name :: name in added <==>
              exists i :: 0 <= i < |assets| && assets[i].ClipAsset? && assets[i].clip.name == name &&
                          !Contains(name, PreviewMarker)
  {
    var n := |assets| - 1;
    var before := assets[..n];
    forall name | exists i :: 0 <= i < |assets| && assets[i].ClipAsset? && assets[i].clip.name == name &&
                              !Contains(name, PreviewMarker)
      ensures name in AddFirst(fbxClips, assets[n])
    {
      var i :| 0 <= i < |assets| && assets[i].ClipAsset? && assets[i].clip.name == name && !Contains(name, PreviewMarker);
      if i < n {
        assert before[i] == assets[i];
      }
    }
    forall name | name in AddFirst(fbxClips, assets[n])
      ensures exists i :: 0 <= i < |assets| && assets[i].ClipAsset? && assets[i].clip.name == name &&
                          !Contains(name, PreviewMarker)
    {
      if name in fbxClips {
        var i :| 0 <= i < n && before[i].ClipAsset? && before[i].clip.name == name && !Contains(name, PreviewMarker);
        assert assets[i] == before[i];
      }
    }
  }

  lemma AddFirstValues(assets: seq<Asset>, fbxClips: map<string, Clip>)
    requires |assets| > 0 && IsFbxClipMap(assets[..|assets| - 1], fbxClips)
    ensures var added := AddFirst(fbxClips, assets[|assets| - 1]);
            forall name :: name in added ==>
              exists i :: 0 <= i < |assets| && assets[i] == ClipAsset(added[name]) &&
                          added[name].name == name && NoEarlierClip(assets, i, name)
  {
    var n := |assets| - 1;
    var before := assets[..n];
    var added := AddFirst(fbxClips, assets[n]);
    forall name | name in added
      ensures exists i :: 0 <= i < |assets| && assets[i] == ClipAsset(added[name]) &&
                          added[name].name == name && NoEarlierClip(assets, i, name)
    {
      if name in fbxClips {
        var i :| 0 <= i < n && before[i] == ClipAsset(fbxClips[name]) &&
                 fbxClips[name].name == name && NoEarlierClip(before, i, name);
        assert assets[i] == before[i] && added[name] == fbxClips[name];
        assert NoEarlierClip(assets, i, name);
      } else {
        assert assets[n] == ClipAsset(added[name]) && added[name].name == name;
        forall j | 0 <= j < n && assets[j].ClipAsset?
          ensures assets[j].clip.name != name
        {
          assert before[j] == assets[j];
        }
      }
    }
  }

  /** Builds the clip map of a model file; the first clip with a name wins. */
  method BuildFbxClips(assets: seq<Asset>) returns (fbxClips: map<string, Clip>)
    ensures IsFbxClipMap(assets, fbxClips)
  {
    fbxClips := map[];
    for n := 0 to |assets|
      invariant IsFbxClipMap(assets[..n], fbxClips)
    {
      var upTo := assets[..n + 1];
      assert upTo[..n] == assets[..n] && upTo[n] == assets[n];
      AddFirstKeys(upTo, fbxClips);
      AddFirstValues(upTo, fbxClips);
      var asset := assets[n];
      if asset.ClipAsset? && !Contains(asset.clip.name, PreviewMarker) {
        if asset.clip.name !in fbxClips {
          fbxClips := fbxClips[asset.clip.name := asset.clip];
        }
      }
    }
    assert assets[..|assets|] == assets;
  }

  lemma FirstClipUnique(assets: seq<Asset>, name: string, i: nat, j: nat)
    requires i < |assets| && assets[i].ClipAsset? && assets[i].clip.name == name
    requires j < |assets| && assets[j].ClipAsset? && assets[j].clip.name == name
    requires NoEarlierClip(assets, i, name) && NoEarlierClip(assets, j, name)
    ensures i == j
  {
  }

  /** The clip map is determined by the model file's assets. */
  lemma FbxClipMapUnique(assets: seq<Asset>, m1: map<string, Clip>, m2: map<string, Clip>)
    requires IsFbxClipMap(assets, m1) && IsFbxClipMap(assets, m2)
    ensures m1 == m2
  {
    forall name
      ensures name in m1 <==> name in m2
    {
    }
    forall name | name in m1
      ensures m1[name] == m2[name]
    {
      var i :| 0 <= i < |assets| && assets[i] == ClipAsset(m1[name]) && m1[name].name == name && NoEarlierClip(assets, i, name);
      var j :| 0 <= j < |assets| && assets[j] == ClipAsset(m2[name]) && m2[name].name == name && NoEarlierClip(assets, j, name);
      FirstClipUnique(assets, name, i, j);
    }
  }

  // ---------------------------------------------------------------------------
  // The export walk

  /** The names among the clip slots `cs` that the model file has a clip for. */
  function FbxNames(cs: seq<Clip>, fbxClips: map<string, Clip>): set<string> {
    set i | 0 <= i < |cs| && cs[i].name in fbxClips :: cs[i].name
  }

  lemma FbxNamesSingle(clip: Clip, fbxClips: map<string, Clip>)
    ensures FbxNames([clip], fbxClips) == if clip.name in fbxClips then {clip.name} else {}
  {
    assert [clip][0] == clip;
  }

  lemma FbxNamesAppend(x: seq<Clip>, y: seq<Clip>, fbxClips: map<string, Clip>)
    ensures FbxNames(x + y, fbxClips) == FbxNames(x, fbxClips) + FbxNames(y, fbxClips)
  {
    var xy := x + y;
    forall name | name in FbxNames(xy, fbxClips)
      ensures name in FbxNames(x, fbxClips) + FbxNames(y, fbxClips)
    {
      var i :| 0 <= i < |xy| && xy[i].name in fbxClips && xy[i].name == name;
      if i < |x| {
        assert x[i] == xy[i];
      } else {
        assert y[i - |x|] == xy[i];
      }
    }
    forall name | name in FbxNames(x, fbxClips)
      ensures name in FbxNames(xy, fbxClips)
    {
      var i :| 0 <= i < |x| && x[i].name in fbxClips && x[i].name == name;
      assert xy[i] == x[i];
    }
    forall name | name in FbxNames(y, fbxClips)
      ensures name in FbxNames(xy, fbxClips)
    {
      var i :| 0 <= i < |y| && y[i].name in fbxClips && y[i].name == name;
      assert xy[|x| + i] == y[i];
    }
  }

  lemma FbxNamesCons(cs: seq<Clip>, fbxClips: map<string, Clip>)
    requires cs != []
    ensures FbxNames(cs, fbxClips) == FbxNames([cs[0]], fbxClips) + FbxNames(cs[1..], fbxClips)
  {
    assert [cs[0]] + cs[1..] == cs;
    FbxNamesAppend([cs[0]], cs[1..], fbxClips);
  }

  /** The path a clip named `name` is first offered: `folder/<sanitized name>.anim`. */
  function ExportBase(folder: string, name: string): string {
    folder + "/" + SanitizedName(name) + ".anim"
  }

  /** The path first offered for each clip name of the model file. */
  ghost function Bases(folder: string, fbxClips: map<string, Clip>): map<string, string> {
    map n | n in fbxClips :: ExportBase(folder, n)
  }

  /**
   * The names the walk over the clip slots `cs` exports, in the order it first meets
   * them: the clips the model file has that were not exported before.
   */
  ghost function NewNames(cs: seq<Clip>, fbxClips: map<string, Clip>, exported: set<string>): seq<string>
    decreases |cs|
  {
    if cs == [] then []
    else if cs[0].name in fbxClips && cs[0].name !in exported then
      [cs[0].name] + NewNames(cs[1..], fbxClips, exported + {cs[0].name})
    else NewNames(cs[1..], fbxClips, exported)
  }

  /** The paths in `paths`. */
  ghost function Written(paths: seq<string>): set<string> {
    set i | 0 <= i < |paths| :: paths[i]
  }

  lemma WrittenAppend(p: seq<string>, q: seq<string>)
    ensures Written(p + q) == Written(p) + Written(q)
  {
    var pq := p + q;
    forall x | x in Written(pq) ensures x in Written(p) + Written(q) {
      var i :| 0 <= i < |pq| && pq[i] == x;
      if i >= |p| { assert q[i - |p|] == x; }
    }
    forall x | x in Written(q) ensures x in Written(pq) {
      var i :| 0 <= i < |q| && q[i] == x;
      assert pq[|p| + i] == x;
    }
    assert forall i :: 0 <= i < |p| ==> pq[i] == p[i];
  }

  /**
   * Export number `i`: the name `names[i]` went to `paths[i]`, the path
   * `GetUniqueAssetPath` picks for its base path given the starting assets `taken` and
   * the paths written before it.
   */
  ghost predicate PickedAt(bases: map<string, string>, names: seq<string>, taken: set<string>, paths: seq<string>, i: int)
    requires 0 <= i < |paths| == |names|
  {
    var before := taken + Written(paths[..i]);
    names[i] in bases && paths[i] !in before && NextFree(bases[names[i]], paths[i], before)
  }

  /**
   * A run of exports in order: one path per name, each picked as `PickedAt` says, and
   * the assets at the end are the starting ones plus the paths written.
   */
  ghost predicate Picked(bases: map<string, string>, names: seq<string>, taken: set<string>, paths: seq<string>, final: set<string>) {
    && |paths| == |names|
    && (forall i :: 0 <= i < |paths| ==> PickedAt(bases, names, taken, paths, i))
    && final == taken + Written(paths)
  }

  /** No export at all. */
  lemma PickedNone(bases: map<string, string>, taken: set<string>)
    ensures Picked(bases, [], taken, [], taken)
  {
    assert Written([]) == {};
  }

  /** A single export to a free path `GetUniqueAssetPath` picked. */
  lemma PickedOne(bases: map<string, string>, name: string, taken: set<string>, p: string)
    requires name in bases && p !in taken && NextFree(bases[name], p, taken)
    ensures Picked(bases, [name], taken, [p], taken + {p})
  {
    assert [p][..0] == [] && Written([]) == {};
    assert Written([p]) == {p} by { assert [p][0] == p; }
    assert PickedAt(bases, [name], taken, [p], 0);
  }

  /** Two runs of exports, one after the other, are one run. */
  lemma PickedAppend(bases: map<string, string>, n1: seq<string>, n2: seq<string>,
                     t0: set<string>, p1: seq<string>, t1: set<string>, p2: seq<string>, t2: set<string>)
    requires Picked(bases, n1, t0, p1, t1) && Picked(bases, n2, t1, p2, t2)
    ensures Picked(bases, n1 + n2, t0, p1 + p2, t2)
  {
    var n, p := n1 + n2, p1 + p2;
    forall i | 0 <= i < |p|
      ensures PickedAt(bases, n, t0, p, i)
    {
      if i < |p1| {
        assert p[..i] == p1[..i] && p[i] == p1[i] && n[i] == n1[i];
        assert PickedAt(bases, n1, t0, p1, i);
      } else {
        var j := i - |p1|;
        assert p[..i] == p1 + p2[..j] && p[i] == p2[j] && n[i] == n2[j];
        WrittenAppend(p1, p2[..j]);
        assert t0 + Written(p[..i]) == t1 + Written(p2[..j]);
        assert PickedAt(bases, n2, t1, p2, j);
      }
    }
    WrittenAppend(p1, p2);
  }

  /** The names exported after the first slot of `a`, then the rest of `a`. */
  lemma ExportedHead(a: seq<Clip>, fbxClips: map<string, Clip>, e0: set<string>)
    requires a != []
    ensures e0 + FbxNames(a, fbxClips) ==
            (if a[0].name in fbxClips then e0 + {a[0].name} else e0) + FbxNames(a[1..], fbxClips)
  {
    FbxNamesCons(a, fbxClips);
    FbxNamesSingle(a[0], fbxClips);
  }

  /** Walking `a` and then `b` meets the names of `a`, then those of `b` not met in `a`. */
  lemma {:induction false} NewNamesAppend(a: seq<Clip>, b: seq<Clip>, fbxClips: map<string, Clip>, e0: set<string>)
    ensures NewNames(a + b, fbxClips, e0) == NewNames(a, fbxClips, e0) + NewNames(b, fbxClips, e0 + FbxNames(a, fbxClips))
    decreases |a|
  {
    if a == [] {
      assert a + b == b;
      assert e0 + FbxNames(a, fbxClips) == e0;
    } else {
      var n := a[0].name;
      ExportedHead(a, fbxClips, e0);
      assert (a + b)[0] == a[0] && (a + b)[1..] == a[1..] + b;
      if n in fbxClips && n !in e0 {
        NewNamesAppend(a[1..], b, fbxClips, e0 + {n});
      } else {
        assert (if n in fbxClips then e0 + {n} else e0) == e0;
        NewNamesAppend(a[1..], b, fbxClips, e0);
      }
    }
  }

  lemma NewNamesOne(clip: Clip, fbxClips: map<string, Clip>, exported: set<string>)
    ensures NewNames([clip], fbxClips, exported) == if clip.name in fbxClips && clip.name !in exported then [clip.name] else []
  {
    assert [clip][1..] == [];
  }

  /** The new names of a run of slots, split into its first slot's name and the rest. */
  lemma NewNameSplit(n: string, inMap: bool, all: set<string>, later: set<string>, exported: set<string>)
    requires all == (if inMap then {n} else {}) + later
    ensures inMap && n !in exported ==> |all - exported| == 1 + |later - (exported + {n})|
    ensures !(inMap && n !in exported) ==> all - exported == later - exported
  {
    if inMap && n !in exported {
      assert all - exported == {n} + (later - (exported + {n}));
    }
  }

  /**
   * The walk meets each name it exports once: as many names as the slots hold names
   * the model file has that were not exported before.
   */
  lemma {:induction false} NewNamesCount(cs: seq<Clip>, fbxClips: map<string, Clip>, exported: set<string>)
    ensures |NewNames(cs, fbxClips, exported)| == |FbxNames(cs, fbxClips) - exported|
    decreases |cs|
  {
    if cs == [] {
      assert FbxNames(cs, fbxClips) == {};
    } else {
      var n := cs[0].name;
      FbxNamesCons(cs, fbxClips);
      FbxNamesSingle(cs[0], fbxClips);
      NewNameSplit(n, n in fbxClips, FbxNames(cs, fbxClips), FbxNames(cs[1..], fbxClips), exported);
      if n in fbxClips && n !in exported {
        NewNamesCount(cs[1..], fbxClips, exported + {n});
      } else {
        NewNamesCount(cs[1..], fbxClips, exported);
      }
    }
  }

  /** One more run of clip slots walked: the exported names, the count and the exports add up. */
  lemma WalkStep(bases: map<string, string>, fbxClips: map<string, Clip>, front: seq<Clip>, run: seq<Clip>,
                 t0: set<string>, t1: set<string>, t2: set<string>,
                 e0: set<string>, e1: set<string>, e2: set<string>,
                 c0: nat, c1: nat, c2: nat, p1: seq<string>, p2: seq<string>)
    requires e1 == e0 + FbxNames(front, fbxClips) && c1 == c0 + |p1| && Picked(bases, NewNames(front, fbxClips, e0), t0, p1, t1)
    requires e2 == e1 + FbxNames(run, fbxClips) && c2 == c1 + |p2| && Picked(bases, NewNames(run, fbxClips, e1), t1, p2, t2)
    ensures e2 == e0 + FbxNames(front + run, fbxClips) && c2 == c0 + |p1 + p2|
    ensures Picked(bases, NewNames(front + run, fbxClips, e0), t0, p1 + p2, t2)
  {
    FbxNamesAppend(front, run, fbxClips);
    NewNamesAppend(front, run, fbxClips, e0);
    PickedAppend(bases, NewNames(front, fbxClips, e0), NewNames(run, fbxClips, e1), t0, p1, t1, p2, t2);
  }

  /** `GetUniqueAssetPath` has one answer: at most one free path fits `NextFree`. */
  lemma NextFreeUnique(path: string, r1: string, r2: string, taken: set<string>)
    requires r1 !in taken && NextFree(path, r1, taken)
    requires r2 !in taken && NextFree(path, r2, taken)
    ensures r1 == r2
  {
    if path in taken {
      var k1: nat :| k1 >= 1 && r1 == Candidate(path, k1) && forall j: nat :: 1 <= j < k1 ==> Candidate(path, j) in taken;
      var k2: nat :| k2 >= 1 && r2 == Candidate(path, k2) && forall j: nat :: 1 <= j < k2 ==> Candidate(path, j) in taken;
      assert Candidate(path, k1) !in taken && Candidate(path, k2) !in taken;
    }
  }

  /** Two runs that agree before export `i` agree on export `i` too. */
  lemma PickedSameAt(bases: map<string, string>, names: seq<string>, taken: set<string>,
                     p: seq<string>, p': seq<string>, i: nat)
    requires i < |p| == |p'| == |names|
    requires PickedAt(bases, names, taken, p, i) && PickedAt(bases, names, taken, p', i)
    requires p[..i] == p'[..i]
    ensures p[..i + 1] == p'[..i + 1]
  {
    var before := taken + Written(p[..i]);
    NextFreeUnique(bases[names[i]], p[i], p'[i], before);
    assert p[..i + 1] == p[..i] + [p[i]] && p'[..i + 1] == p'[..i] + [p'[i]];
  }

  /** Runs of exports of the same names from the same assets agree on their first `k` paths. */
  lemma {:induction false} PickedPrefix(bases: map<string, string>, names: seq<string>, taken: set<string>,
                                        p: seq<string>, final: set<string>, p': seq<string>, final': set<string>, k: nat)
    requires Picked(bases, names, taken, p, final) && Picked(bases, names, taken, p', final')
    requires k <= |p|
    ensures p[..k] == p'[..k]
  {
    if k > 0 {
      PickedPrefix(bases, names, taken, p, final, p', final', k - 1);
      PickedSameAt(bases, names, taken, p, p', k - 1);
    }
  }

  /**
   * Which path each exported name gets is determined: two runs exporting the same names
   * in the same order from the same assets write the same paths and end with the same
   * assets.
   */
  lemma PickedUnique(bases: map<string, string>, names: seq<string>, taken: set<string>,
                     p: seq<string>, final: set<string>, p': seq<string>, final': set<string>)
    requires Picked(bases, names, taken, p, final) && Picked(bases, names, taken, p', final')
    ensures p == p' && final == final'
  {
    PickedPrefix(bases, names, taken, p, final, p', final', |p|);
    assert p == p[..|p|] && p' == p'[..|p'|];
  }

  /** One more new path grows the assets by one. */
  lemma GrowOne(taken: set<string>, p: seq<string>, k: nat)
    requires 0 < k <= |p| && p[k - 1] !in taken + Written(p[..k - 1])
    requires |taken + Written(p[..k - 1])| == |taken| + k - 1
    ensures |taken + Written(p[..k])| == |taken| + k
  {
    var before := taken + Written(p[..k - 1]);
    assert p[..k] == p[..k - 1] + [p[k - 1]];
    WrittenAppend(p[..k - 1], [p[k - 1]]);
    assert Written([p[k - 1]]) == {p[k - 1]} by { assert [p[k - 1]][0] == p[k - 1]; }
    assert taken + Written(p[..k]) == before + {p[k - 1]};
  }

  /** The starting assets plus the first `k` paths: each path was new, so the count grows by one per path. */
  lemma {:induction false} PickedGrows(bases: map<string, string>, names: seq<string>, taken: set<string>,
                                       p: seq<string>, final: set<string>, k: nat)
    requires Picked(bases, names, taken, p, final) && k <= |p|
    ensures |taken + Written(p[..k])| == |taken| + k
  {
    if k == 0 {
      assert Written(p[..0]) == {};
    } else {
      PickedGrows(bases, names, taken, p, final, k - 1);
      assert PickedAt(bases, names, taken, p, k - 1);
      GrowOne(taken, p, k);
    }
  }

  /**
   * Each path a run of exports writes was free, no two are the same, and the assets
   * grow by exactly one per export.
   */
  lemma PickedAssets(bases: map<string, string>, names: seq<string>, taken: set<string>, p: seq<string>, final: set<string>)
    requires Picked(bases, names, taken, p, final)
    ensures forall i :: 0 <= i < |p| ==> p[i] !in taken
    ensures forall i, j :: 0 <= i < j < |p| ==> p[i] != p[j]
    ensures taken <= final && |final| == |taken| + |p|
  {
    forall i, j | 0 <= i < j < |p| ensures p[i] != p[j] {
      assert PickedAt(bases, names, taken, p, j);
      assert p[..j][i] == p[i];
    }
    forall i | 0 <= i < |p| ensures p[i] !in taken {
      assert PickedAt(bases, names, taken, p, i);
    }
    PickedGrows(bases, names, taken, p, final, |p|);
    assert p[..|p|] == p;
  }

  /** A whole walk from nothing exported: one new asset per name the slots hold that the model file has. */
  lemma WalkTotals(bases: map<string, string>, cs: seq<Clip>, fbxClips: map<string, Clip>,
                   taken: set<string>, paths: seq<string>, final: set<string>)
    requires Picked(bases, NewNames(cs, fbxClips, {}), taken, paths, final)
    ensures |paths| == |FbxNames(cs, fbxClips)|
    ensures taken <= final && |final| == |taken| + |paths|
  {
    NewNamesCount(cs, fbxClips, {});
    PickedAssets(bases, NewNames(cs, fbxClips, {}), taken, paths, final);
    assert FbxNames(cs, fbxClips) - {} == FbxNames(cs, fbxClips);
  }

  /**
   * `ExportMotion` on a clip: a clip the model file has and that was not exported yet
   * is written to a free path named after it and recorded; any other clip changes
   * nothing.
   */
  method ExportClip(db: AssetDatabase, exportFolder: string, clip: Clip, fbxClips: map<string, Clip>, exported: set<string>, count: nat)
    returns (exportedAfter: set<string>, countAfter: nat, ghost paths: seq<string>)
    modifies db
    ensures exportedAfter == if clip.name in fbxClips then exported + {clip.name} else exported
    ensures countAfter == count + |paths|
    ensures Picked(Bases(exportFolder, fbxClips), NewNames([clip], fbxClips, exported), old(db.assets), paths, db.assets)
    ensures db.folders == old(db.folders)
  {
    exportedAfter, countAfter, paths := exported, count, [];
    ghost var taken := db.assets;
    if clip.name in fbxClips && clip.name !in exported {
      var safeName := SanitizeFileName(clip.name);
      var newPath := exportFolder + "/" + safeName + ".anim";
      newPath := GetUniqueAssetPath(db, newPath);
      db.CreateAsset(newPath);
      exportedAfter := exported + {clip.name};
      countAfter := count + 1;
      paths := [newPath];
      PickedOne(Bases(exportFolder, fbxClips), clip.name, taken, newPath);
    } else {
      PickedNone(Bases(exportFolder, fbxClips), taken);
    }
    NewNamesOne(clip, fbxClips, exported);
  }

  /** `ExportMotion`: a clip is exported, a blend tree's non-null children are visited in order. */
  method ExportMotion(db: AssetDatabase, exportFolder: string, motion: Motion, fbxClips: map<string, Clip>, exported: set<string>, count: nat)
    returns (exportedAfter: set<string>, countAfter: nat, ghost paths: seq<string>)
    modifies db
    ensures exportedAfter == exported + FbxNames(MotionClips(motion), fbxClips)
    ensures countAfter == count + |paths|
    ensures Picked(Bases(exportFolder, fbxClips), NewNames(MotionClips(motion), fbxClips, exported), old(db.assets), paths, db.assets)
    ensures db.folders == old(db.folders)
    decreases motion
  {
    match motion {
      case ClipMotion(clip) =>
        exportedAfter, countAfter, paths := ExportClip(db, exportFolder, clip, fbxClips, exported, count);
        FbxNamesSingle(clip, fbxClips);
      case BlendTree(children) =>
        exportedAfter, countAfter, paths := ExportChildren(db, exportFolder, children, fbxClips, exported, count);
      case NoMotion =>
        exportedAfter, countAfter, paths := exported, count, [];
        assert FbxNames([], fbxClips) == {};
        PickedNone(Bases(exportFolder, fbxClips), db.assets);
    }
  }

  /** The loop over a blend tree's children. */
  method ExportChildren(db: AssetDatabase, exportFolder: string, children: seq<Motion>, fbxClips: map<string, Clip>, exported: set<string>, count: nat)
    returns (exportedAfter: set<string>, countAfter: nat, ghost paths: seq<string>)
    modifies db
    ensures exportedAfter == exported + FbxNames(ChildClips(children), fbxClips)
    ensures countAfter == count + |paths|
    ensures Picked(Bases(exportFolder, fbxClips), NewNames(ChildClips(children), fbxClips, exported), old(db.assets), paths, db.assets)
    ensures db.folders == old(db.folders)
    decreases children
  {
    exportedAfter, countAfter, paths := exported, count, [];
    assert FbxNames([], fbxClips) == {};
    PickedNone(Bases(exportFolder, fbxClips), db.assets);
    for i := 0 to |children|
      invariant exportedAfter == exported + FbxNames(ChildClips(children[..i]), fbxClips)
      invariant countAfter == count + |paths|
      invariant Picked(Bases(exportFolder, fbxClips), NewNames(ChildClips(children[..i]), fbxClips, exported), old(db.assets), paths, db.assets)
      invariant db.folders == old(db.folders)
    {
      ghost var assetsBefore := db.assets;
      var e, c := exportedAfter, countAfter;
      ghost var more := [];
      if !children[i].NoMotion? {
        e, c, more := ExportMotion(db, exportFolder, children[i], fbxClips, exportedAfter, countAfter);
      } else {
        assert FbxNames([], fbxClips) == {};
        PickedNone(Bases(exportFolder, fbxClips), db.assets);
      }
      WalkStep(Bases(exportFolder, fbxClips), fbxClips, ChildClips(children[..i]), MotionClips(children[i]),
               old(db.assets), assetsBefore, db.assets, exported, exportedAfter, e, count, countAfter, c, paths, more);
      ChildClipsStep(children, i);
      exportedAfter, countAfter, paths := e, c, paths + more;
    }
    assert children[..|children|] == children;
  }

  /** `FindClipsInStateMachine`: the states' non-null motions, then every sub-state machine. */
  method ExportStateMachine(db: AssetDatabase, exportFolder: string, sm: StateMachine, fbxClips: map<string, Clip>, exported: set<string>, count: nat)
    returns (exportedAfter: set<string>, countAfter: nat, ghost paths: seq<string>)
    modifies db
    ensures exportedAfter == exported + FbxNames(MachineClips(sm), fbxClips)
    ensures countAfter == count + |paths|
    ensures Picked(Bases(exportFolder, fbxClips), NewNames(MachineClips(sm), fbxClips, exported), old(db.assets), paths, db.assets)
    ensures db.folders == old(db.folders)
    decreases sm
  {
    var e1, c1;
    ghost var p1;
    e1, c1, p1 := ExportStates(db, exportFolder, sm.states, fbxClips, exported, count);
    ghost var assetsMid := db.assets;
    ghost var p2;
    exportedAfter, countAfter, p2 := ExportMachines(db, exportFolder, sm.subMachines, fbxClips, e1, c1);
    WalkStep(Bases(exportFolder, fbxClips), fbxClips, StateClips(sm.states), MachinesClips(sm.subMachines),
             old(db.assets), assetsMid, db.assets, exported, e1, exportedAfter, count, c1, countAfter, p1, p2);
    paths := p1 + p2;
  }

  method ExportStates(db: AssetDatabase, exportFolder: string, states: seq<State>, fbxClips: map<string, Clip>, exported: set<string>, count: nat)
    returns (exportedAfter: set<string>, countAfter: nat, ghost paths: seq<string>)
    modifies db
    ensures exportedAfter == exported + FbxNames(StateClips(states), fbxClips)
    ensures countAfter == count + |paths|
    ensures Picked(Bases(exportFolder, fbxClips), NewNames(StateClips(states), fbxClips, exported), old(db.assets), paths, db.assets)
    ensures db.folders == old(db.folders)
  {
    exportedAfter, countAfter, paths := exported, count, [];
    assert FbxNames([], fbxClips) == {};
    PickedNone(Bases(exportFolder, fbxClips), db.assets);
    for i := 0 to |states|
      invariant exportedAfter == exported + FbxNames(StateClips(states[..i]), fbxClips)
      invariant countAfter == count + |paths|
      invariant Picked(Bases(exportFolder, fbxClips), NewNames(StateClips(states[..i]), fbxClips, exported), old(db.assets), paths, db.assets)
      invariant db.folders == old(db.folders)
    {
      ghost var assetsBefore := db.assets;
      var e, c := exportedAfter, countAfter;
      ghost var more := [];
      if !states[i].motion.NoMotion? {
        e, c, more := ExportMotion(db, exportFolder, states[i].motion, fbxClips, exportedAfter, countAfter);
      } else {
        assert FbxNames([], fbxClips) == {};
        PickedNone(Bases(exportFolder, fbxClips), db.assets);
      }
      WalkStep(Bases(exportFolder, fbxClips), fbxClips, StateClips(states[..i]), MotionClips(states[i].motion),
               old(db.assets), assetsBefore, db.assets, exported, exportedAfter, e, count, countAfter, c, paths, more);
      StateClipsStep(states, i);
      exportedAfter, countAfter, paths := e, c, paths + more;
    }
    assert states[..|states|] == states;
  }

  /** The loop over a sequence of state machines: sub-state machines, or a controller's layers. */
  method ExportMachines(db: AssetDatabase, exportFolder: string, sms: seq<StateMachine>, fbxClips: map<string, Clip>, exported: set<string>, count: nat)
    returns (exportedAfter: set<string>, countAfter: nat, ghost paths: seq<string>)
    modifies db
    ensures exportedAfter == exported + FbxNames(MachinesClips(sms), fbxClips)
    ensures countAfter == count + |paths|
    ensures Picked(Bases(exportFolder, fbxClips), NewNames(MachinesClips(sms), fbxClips, exported), old(db.assets), paths, db.assets)
    ensures db.folders == old(db.folders)
    decreases sms
  {
    exportedAfter, countAfter, paths := exported, count, [];
    assert FbxNames([], fbxClips) == {};
    PickedNone(Bases(exportFolder, fbxClips), db.assets);
    for i := 0 to |sms|
      invariant exportedAfter == exported + FbxNames(MachinesClips(sms[..i]), fbxClips)
      invariant countAfter == count + |paths|
      invariant Picked(Bases(exportFolder, fbxClips), NewNames(MachinesClips(sms[..i]), fbxClips, exported), old(db.assets), paths, db.assets)
      invariant db.folders == old(db.folders)
    {
      ghost var assetsBefore := db.assets;
      var e, c;
      ghost var more;
      e, c, more := ExportStateMachine(db, exportFolder, sms[i], fbxClips, exportedAfter, countAfter);
      WalkStep(Bases(exportFolder, fbxClips), fbxClips, MachinesClips(sms[..i]), MachineClips(sms[i]),
               old(db.assets), assetsBefore, db.assets, exported, exportedAfter, e, count, countAfter, c, paths, more);
      MachinesClipsStep(sms, i);
      exportedAfter, countAfter, paths := e, c, paths + more;
    }
    assert sms[..|sms|] == sms;
  }

  /**
   * The exporter window's state: the model file (its sub-assets) and controller it was
   * given (null when not chosen) and the export folder, initially "Assets/ExportedClips".
   */
  class AnimationClipExporter {
    var fbxAsset: Option<seq<Asset>>
    var controller: Option<Controller>
    var exportFolder: string

    constructor ()
      ensures fbxAsset == None && controller == None && exportFolder == "Assets/ExportedClips"
    {
      fbxAsset := None;
      controller := None;
      exportFolder := "Assets/ExportedClips";
    }

    /**
     * The folder picker: a non-empty selection inside the project's data folder becomes
     * "Assets" followed by the rest of the selection with '\' turned to '/'; any other
     * selection leaves the export folder as it was.
     */
    method ChooseFolder(selectedPath: string, dataPath: string)
      modifies this`exportFolder
      ensures selectedPath != [] && StartsWith(selectedPath, dataPath) ==>
                exportFolder == "Assets" + ReplaceChar(selectedPath[|dataPath|..], '\\', '/')
      ensures !(selectedPath != [] && StartsWith(selectedPath, dataPath)) ==> exportFolder == old(exportFolder)
      ensures StartsWith(old(exportFolder), "Assets") ==> StartsWith(exportFolder, "Assets")
    {
      if selectedPath != [] && StartsWith(selectedPath, dataPath) {
        exportFolder := "Assets" + ReplaceChar(selectedPath[|dataPath|..], '\\', '/');
        assert exportFolder[..6] == "Assets";
      }
    }

    /**
     * `ExportClips`: without a model file or a controller, or with an export folder that
     * is empty or outside "Assets", nothing is written. Otherwise the folder chain is
     * created and each clip the controller plays that the model file has (not a preview)
     * is exported once, in visiting order, each to the path `GetUniqueAssetPath` picks
     * at that moment; the count is the number of such names.
     */
    method ExportClips(db: AssetDatabase) returns (count: nat, ghost fbxClips: map<string, Clip>, ghost paths: seq<string>)
      modifies db
      ensures fbxAsset.None? || controller.None? || exportFolder == [] || !StartsWith(exportFolder, "Assets") ==>
                db.folders == old(db.folders) && db.assets == old(db.assets) && count == 0
      ensures fbxAsset.Some? && controller.Some? && exportFolder != [] && StartsWith(exportFolder, "Assets") ==>
                && IsFbxClipMap(fbxAsset.value, fbxClips)
                && count == |FbxNames(ControllerClips(controller.value), fbxClips)| == |paths|
                && Picked(Bases(exportFolder, fbxClips), NewNames(ControllerClips(controller.value), fbxClips, {}),
                          old(db.assets), paths, db.assets)
                && old(db.assets) <= db.assets && |db.assets| == |old(db.assets)| + count
                && (old(exportFolder in db.folders) ==> db.folders == old(db.folders))
                && (!old(exportFolder in db.folders) ==>
                      db.folders == old(db.folders) + FolderChain(SplitRemoveEmpty(exportFolder, '/')))
    {
      fbxClips, paths := map[], [];
      if fbxAsset.None? || controller.None? {
        return 0, fbxClips, paths;
      }
      var clips := BuildFbxClips(fbxAsset.value);
      fbxClips := clips;
      if exportFolder == [] || !StartsWith(exportFolder, "Assets") {
        return 0, fbxClips, paths;
      }
      AssetsPathHasParts(exportFolder);
      EnsureFolderExists(db, exportFolder);
      ghost var assetsBefore := db.assets;
      var exported;
      exported, count, paths := ExportMachines(db, exportFolder, controller.value.layers, clips, {}, 0);
      WalkTotals(Bases(exportFolder, clips), ControllerClips(controller.value), clips, assetsBefore, paths, db.assets);
    }
  }
}
