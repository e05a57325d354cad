/**
 * The Shader context-menu helpers: picking the include files out of the
 * current selection, and choosing the folder a new include file goes to.
 * The selection and the asset database are passed in as values.
 */
module ShaderMenu {
  import opened Wrappers
  import opened Text
  import opened Filtering

  /** File extension of a shader include. */
  const CGINC_EXT := ".cginc"

  /** Folder used when nothing usable is selected. */
  const DEFAULT_TARGET := "Assets/"

  /** An asset path counts as an include when its lower-cased form contains ".cginc". */
  predicate IsCgincPath(path: string) {
    Contains(Lower(path), CGINC_EXT)
  }

  /** The test GetSelectedCginc applies to each selected text asset. */
  function SelectsCginc<A>(assetPath: A -> string): A -> bool {
    a => IsCgincPath(assetPath(a))
  }

  /** Upper- and lower-case spellings of the extension are accepted alike. */
  lemma IsCgincPathIgnoresCase(path: string)
    ensures IsCgincPath(path) <==> ContainsIgnoreCase(path, CGINC_EXT)
    ensures IsCgincPath(Lower(path)) <==> IsCgincPath(path)
  {
    LowerOfLowerCase(CGINC_EXT);
    LowerIdempotent(path);
  }

  /**
   * GetSelectedCginc: of the selected text assets (`textAssets`, in selection
   * order), keep those whose asset path passes IsCgincPath.
   */
  method GetSelectedCginc<A>(textAssets: seq<A>, assetPath: A -> string) returns (cgincs: seq<A>)
    ensures cgincs == Keep(textAssets, SelectsCginc(assetPath))
    ensures forall a :: a in cgincs <==> a in textAssets && IsCgincPath(assetPath(a))
    ensures |cgincs| <= |textAssets|
  {
    cgincs := [];
    for i := 0 to |textAssets|
      invariant cgincs == Keep(textAssets[..i], SelectsCginc(assetPath))
    {
      KeepStep(textAssets, i, SelectsCginc(assetPath));
      var path := assetPath(textAssets[i]);
      if IsCgincPath(path) {
        cgincs := cgincs + [textAssets[i]];
      }
    }
    assert textAssets[..|textAssets|] == textAssets;
    KeepAllPass(textAssets, SelectsCginc(assetPath));
    forall a ensures a in cgincs <==> a in textAssets && IsCgincPath(assetPath(a)) {
      KeepMembers(textAssets, SelectsCginc(assetPath), a);
    }
  }

  /**
   * GetTargetPath: the folder a new include is created in, for the selected
   * object. `obj` is None when nothing is selected and otherwise the selected
   * object's asset path ("" when it has none); `folders` is the set of paths
   * the asset database reports as valid folders.
   */
  method GetTargetPath(obj: Option<string>, folders: set<string>) returns (targetPath: string)
    ensures obj == None || obj == Some("") ==> targetPath == DEFAULT_TARGET
    ensures obj.Some? && obj.value != "" && obj.value in folders ==> targetPath == obj.value + "/"
    ensures obj.Some? && obj.value != "" && obj.value !in folders ==>
      StartsWith(obj.value, targetPath) && '/' !in obj.value[|targetPath|..]
    ensures targetPath == "" || targetPath[|targetPath| - 1] == '/'
  {
    targetPath := DEFAULT_TARGET;
    if obj == None {
      return;
    }
    var objPath := obj.value;
    if objPath == "" {
      return;
    }
    if objPath in folders {
      targetPath := objPath + "/";
    } else {
      targetPath := "";
      var splitPath := Split(objPath);
      for i := 0 to |splitPath| - 1
        invariant targetPath == JoinEach(splitPath[..i])
      {
        assert splitPath[..i + 1][..i] == splitPath[..i];
        targetPath := targetPath + splitPath[i] + "/";
      }
      JoinAllButLastSegment(objPath);
      PrefixThroughLastSlashSpec(objPath);
    }
  }
}
