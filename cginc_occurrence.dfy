/**
 * "Find all shaders/cginc using this cginc": the window section that lists
 * every include file and shader whose source text mentions the chosen
 * include by name. The asset database and the file system are passed in as
 * a list of GUIDs per asset type, a GUID-to-path map and the text of each file.
 */
module CgincOccurrence {
  import opened Wrappers
  import opened Text
  import opened Filtering
  import ShaderMenu

  /** A text asset as far as this section uses it: its GUID and its name (file name without extension). */
  datatype TextAsset = TextAsset(guid: string, name: string)

  /** The test applied to text assets when gathering candidates: a case-SENSITIVE ".cginc" in the path. */
  function HasCgincPath(guidToPath: string -> string): string -> bool {
    g => Contains(guidToPath(g), ShaderMenu.CGINC_EXT)
  }

  /** `text` mentions the include called `name`: its lower case contains the lower-cased name and ".cginc". */
  predicate Mentions(text: string, name: string) {
    Contains(Lower(text), Lower(name) + ShaderMenu.CGINC_EXT)
  }

  /** The test applied to each candidate path: it is not empty and its file mentions `name`. */
  function RefersTo(readText: string -> string, name: string): string -> bool {
    p => p != "" && Mentions(readText(p), name)
  }

  /** Mentions is a case-insensitive search for `name + ".cginc"` in the text. */
  lemma MentionsIgnoresCase(text: string, name: string)
    ensures Mentions(text, name) <==> ContainsIgnoreCase(text, name + ShaderMenu.CGINC_EXT)
  {
    LowerAppend(name, ShaderMenu.CGINC_EXT);
    LowerOfLowerCase(ShaderMenu.CGINC_EXT);
  }

  /**
   * The first two loops: the GUIDs of the text assets whose path contains
   * ".cginc", in database order, followed by the GUIDs of all shaders.
   */
  method CandidateGuids(textAssetGuids: seq<string>, shaderGuids: seq<string>, guidToPath: string -> string)
    returns (all: seq<string>)
    ensures all == Keep(textAssetGuids, HasCgincPath(guidToPath)) + shaderGuids
  {
    all := [];
    for i := 0 to |textAssetGuids|
      invariant all == Keep(textAssetGuids[..i], HasCgincPath(guidToPath))
    {
      KeepStep(textAssetGuids, i, HasCgincPath(guidToPath));
      var path := guidToPath(textAssetGuids[i]);
      if Contains(path, ShaderMenu.CGINC_EXT) {
        all := all + [textAssetGuids[i]];
      }
    }
    assert textAssetGuids[..|textAssetGuids|] == textAssetGuids;
    ghost var includes := all;
    for i := 0 to |shaderGuids|
      invariant all == includes + shaderGuids[..i]
    {
      assert shaderGuids[..i + 1] == shaderGuids[..i] + [shaderGuids[i]];
      all := all + [shaderGuids[i]];
    }
    assert shaderGuids[..|shaderGuids|] == shaderGuids;
  }

  /**
   * The matching loop: each candidate GUID is replaced in the list by its
   * path; a non-empty path whose file mentions `name` is reported, in
   * candidate order.
   */
  method MatchReferences(all: seq<string>, guidToPath: string -> string, readText: string -> string, name: string)
    returns (found: seq<string>)
    ensures found == Keep(MapSeq(all, guidToPath), RefersTo(readText, name))
    ensures forall p :: p in found <==> p in MapSeq(all, guidToPath) && p != "" && Mentions(readText(p), name)
  {
    var list := all;
    found := [];
    for i := 0 to |list|
      invariant |list| == |all|
      invariant forall k :: 0 <= k < i ==> list[k] == guidToPath(all[k])
      invariant forall k :: i <= k < |all| ==> list[k] == all[k]
      invariant found == Keep(MapSeq(all, guidToPath)[..i], RefersTo(readText, name))
    {
      KeepStep(MapSeq(all, guidToPath), i, RefersTo(readText, name));
      list := list[i := guidToPath(list[i])];
      if list[i] != "" {
        var text := readText(list[i]);
        text := Lower(text);
        if Contains(text, Lower(name) + ShaderMenu.CGINC_EXT) {
          found := found + [list[i]];
        }
      }
    }
    assert MapSeq(all, guidToPath)[..|all|] == MapSeq(all, guidToPath);
    forall p ensures p in found <==> p in MapSeq(all, guidToPath) && p != "" && Mentions(readText(p), name) {
      KeepMembers(MapSeq(all, guidToPath), RefersTo(readText, name), p);
    }
  }

  /** The list the section shows for include `name`, as a value. */
  function References(textAssetGuids: seq<string>, shaderGuids: seq<string>, guidToPath: string -> string,
                      readText: string -> string, name: string): seq<string>
  {
    Keep(MapSeq(Keep(textAssetGuids, HasCgincPath(guidToPath)) + shaderGuids, guidToPath), RefersTo(readText, name))
  }

  /**
   * Discovery order: the referring include files come first, in database
   * order, then the referring shaders, in database order.
   */
  lemma ReferencesOrder(textAssetGuids: seq<string>, shaderGuids: seq<string>, guidToPath: string -> string,
                        readText: string -> string, name: string)
    ensures References(textAssetGuids, shaderGuids, guidToPath, readText, name) ==
      Keep(MapSeq(Keep(textAssetGuids, HasCgincPath(guidToPath)), guidToPath), RefersTo(readText, name)) +
      Keep(MapSeq(shaderGuids, guidToPath), RefersTo(readText, name))
  {
    var includes := Keep(textAssetGuids, HasCgincPath(guidToPath));
    MapSeqAppend(includes, shaderGuids, guidToPath);
    KeepAppend(MapSeq(includes, guidToPath), MapSeq(shaderGuids, guidToPath), RefersTo(readText, name));
  }

  /**
   * Exactly what is reported: the path of an include file (".cginc" in its
   * path) or of a shader, not empty, whose text mentions `name` in any case.
   */
  lemma ReferencesMembers(textAssetGuids: seq<string>, shaderGuids: seq<string>, guidToPath: string -> string,
                          readText: string -> string, name: string, p: string)
    ensures p in References(textAssetGuids, shaderGuids, guidToPath, readText, name) <==>
      p != "" && ContainsIgnoreCase(readText(p), name + ShaderMenu.CGINC_EXT) &&
      ((exists g :: g in textAssetGuids && Contains(guidToPath(g), ShaderMenu.CGINC_EXT) && guidToPath(g) == p) ||
       (exists g :: g in shaderGuids && guidToPath(g) == p))
  {
    var includes := Keep(textAssetGuids, HasCgincPath(guidToPath));
    var candidates := includes + shaderGuids;
    KeepMembers(MapSeq(candidates, guidToPath), RefersTo(readText, name), p);
    MentionsIgnoresCase(readText(p), name);
    MapSeqMembers(candidates, guidToPath, p);
    forall g ensures g in candidates <==> (g in textAssetGuids && Contains(guidToPath(g), ShaderMenu.CGINC_EXT)) || g in shaderGuids {
      KeepMembers(textAssetGuids, HasCgincPath(guidToPath), g);
    }
  }

  /** The section's state in the window: the chosen include, the one last searched for, and the list shown. */
  class OccurrenceView {
    var cginc: Option<TextAsset>
    var lastCginc: Option<TextAsset>
    var cgincs: seq<string>

    constructor ()
      ensures cginc == None && lastCginc == None && cgincs == []
    {
      cginc, lastCginc, cgincs := None, None, [];
    }

    /**
     * The part of DrawCgincOccurence that runs on each redraw: when the
     * chosen include changed since the last redraw, the list is cleared
     * (nothing chosen) or rebuilt by a fresh search; otherwise it is kept.
     */
    method Refresh(textAssetGuids: seq<string>, shaderGuids: seq<string>, guidToPath: string -> string,
                   readText: string -> string)
      modifies this
      ensures cginc == old(cginc) && lastCginc == cginc
      ensures old(cginc) == old(lastCginc) ==> cgincs == old(cgincs)
      ensures old(cginc) != old(lastCginc) && cginc == None ==> cgincs == []
      ensures old(cginc) != old(lastCginc) && cginc.Some? ==>
        cgincs == References(textAssetGuids, shaderGuids, guidToPath, readText, cginc.value.name)
    {
      if cginc != lastCginc {
        if cginc == None {
          cgincs := [];
        } else {
          var all := CandidateGuids(textAssetGuids, shaderGuids, guidToPath);
          cgincs := MatchReferences(all, guidToPath, readText, cginc.value.name);
        }
        lastCginc := cginc;
      }
    }
  }
}
