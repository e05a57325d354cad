# ShaderMaster rules, modelled in Dafny

ShaderMaster is a Unity Editor window with context-menu commands for shaders
and materials. Almost all of it is editor glue: drawing the window, querying
the asset database, reading and writing files. This project models the small
rules inside that glue. Every host call is replaced by an input value: the
selection, the asset-database answers, file contents and clock readings.

- **Forced recompilation** (`ForcedCompilation`). Every shader under a folder
  gets a first line `//LastForcedCompilation_<date>_<time>`. A line 0 that
  already holds the marker is overwritten in the array. Otherwise the line is
  inserted in front. An empty or missing file stops the whole loop, because the
  exception is never caught. Proved: the rewrite replaces or inserts exactly one
  line, a repeated run counts as a single run, and a completed run touches only
  the shader files.
- **Target folder for a new include** (`ShaderMenu.GetTargetPath`). The default
  is `Assets/`. A selected folder gives `folder/`. Any other asset path is split
  on `/` and every piece except the last is re-joined. Proved: the result is the
  prefix of the path through its last `/`.
- **Include selection and reference search** (`ShaderMenu.GetSelectedCginc`,
  `CgincOccurrence`). These are order-preserving filters over asset lists.
  Selection uses a case-insensitive `.cginc` test on the path. Gathering
  candidates uses a case-sensitive test. Matching searches the lower-cased text
  of each file for the lower-cased include name followed by `.cginc`.
- **Material commands** (`MaterialMenu`). Toggle Editable flips the hide flags.
  Copy stores a reference to a material. Paste writes the stored material's
  shader and properties onto another material, and does nothing when nothing
  was copied or the target is that same material.

Shared helpers sit in `Text` (prefix, substring, lower case, splitting on `/`),
`Filtering` (the order-preserving filter `Keep` and the element-wise `MapSeq`)
and `Wrappers` (`Option`).

Copy stores a reference, so a paste gives the source's state at paste time
(`MaterialMenu.PasteSeesLaterEdits`).

## Model

| member | source | states |
|---|---|---|
| `Text.ContainsIffOccurs` | Editor/ShaderMaster.cs:177 | The ordinal substring test holds exactly when the pattern occurs at some index of the string. |
| `Text.Contains` | Editor/ShaderMaster.cs:177 | String.Contains as a search from every start position; it is characterised by `Text.ContainsIffOccurs`. |
| `Text.Lower` | Editor/ShaderMaster.cs:231 | Lower-casing keeps the length and maps every character through the ASCII lower-case map. |
| `Text.LowerAppend` | Editor/ShaderMaster.cs:232 | Lower-casing distributes over concatenation. |
| `Text.ContainsIgnoreCaseIffOccurs` | Editor/ShaderMaster.cs:231-232 | Lower-casing both sides and then searching finds the pattern exactly at the positions where every character matches the text up to ASCII case. |
| `Text.Split` | Editor/ShaderMaster.cs:121 | String.Split on "/"; it always gives at least one piece, and `Text.SplitRoundTrip` with `Text.SplitPiecesHaveNoSlash` fix it uniquely. |
| `Text.JoinEach` | Editor/ShaderMaster.cs:122 | The accumulation `targetPath += piece + "/"`; `Text.SplitRoundTrip` and `Text.JoinAllButLastSegment` state what it gives on a split. |
| `Text.PrefixThroughLastSlash` | Editor/ShaderMaster.cs:120-122 | The prefix of a path through its last '/'; `Text.PrefixThroughLastSlashSpec` characterises it. |
| `Text.SplitRoundTrip` | Editor/ShaderMaster.cs:121 | Re-joining the pieces of a split on `/`, each followed by `/`, gives the path followed by `/`. |
| `Text.SplitPiecesHaveNoSlash` | Editor/ShaderMaster.cs:121 | No piece of a split on `/` contains a `/`. |
| `Text.PrefixThroughLastSlashSpec` | Editor/ShaderMaster.cs:120-122 | The prefix through the last `/` is a prefix of the path, is empty or ends in `/`, and no `/` follows it. |
| `Text.JoinAllButLastSegment` | Editor/ShaderMaster.cs:120-122 | Re-joining every piece of the split except the last, each followed by `/`, gives the prefix through the last `/`. |
| `Filtering.KeepStep` | Editor/ShaderMaster.cs:69-73 | One loop step of a filter appends the next element exactly when it passes the test. |
| `Filtering.Keep` | Editor/ShaderMaster.cs:68-73 | The list built by appending inside a loop; `Filtering.KeepMembers`, `Filtering.KeepAllPass` and `Filtering.KeepAppend` state which elements it keeps and in what order. |
| `Filtering.KeepMembers` | Editor/ShaderMaster.cs:69-73 | An element is kept exactly when it is in the input and passes the test. |
| `Filtering.KeepAllPass` | Editor/ShaderMaster.cs:69-73 | Every kept element passes the test, and nothing is added beyond the input's length. |
| `Filtering.KeepAppend` | Editor/ShaderMaster.cs:225-233 | Filtering a concatenation gives the filtered parts concatenated, so kept elements stay in input order. |
| `Filtering.MapSeq` | Editor/ShaderMaster.cs:227 | GUID-to-path mapping keeps the length and maps element by element. |
| `Filtering.MapSeqAppend` | Editor/ShaderMaster.cs:221-227 | Mapping distributes over concatenation. |
| `Filtering.MapSeqMembers` | Editor/ShaderMaster.cs:227 | A value is in the mapped list exactly when it is the image of some input element. |
| `ShaderMenu.IsCgincPathIgnoresCase` | Editor/ShaderMaster.cs:72 | The include test on a path is a case-insensitive search for `.cginc`, and lower-casing the path does not change its answer. |
| `ShaderMenu.IsCgincPath` | Editor/ShaderMaster.cs:72 | The test `path.ToLower().Contains(".cginc")`; `ShaderMenu.IsCgincPathIgnoresCase` shows it ignores case. |
| `ShaderMenu.SelectsCginc` | Editor/ShaderMaster.cs:71-72 | The per-asset test of the selection loop: look up the asset's path and apply `ShaderMenu.IsCgincPath`; `ShaderMenu.GetSelectedCginc` filters with it. |
| `ShaderMenu.GetSelectedCginc` | Editor/ShaderMaster.cs:65-75 | The result keeps the selected text assets whose lower-cased path contains `.cginc`, in selection order, and nothing else; it is never longer than the selection. |
| `ShaderMenu.GetTargetPath` | Editor/ShaderMaster.cs:109-126 | No object or an empty path gives `Assets/`. A valid folder `p` gives `p/`. Any other path gives its prefix through the last `/` (empty when there is none). Every non-empty result ends in `/`. |
| `ForcedCompilation.StampLine` | Editor/ShaderMaster.cs:166-169 | The line written into a shader starts with, and so contains, the marker `//LastForcedCompilation`. |
| `ForcedCompilation.MarkedLines` | Editor/ShaderMaster.cs:175-186 | The marker rewrite of one file as a value; the lemmas below state its cases, its failure on an empty file and its behaviour over repeated runs. |
| `ForcedCompilation.MarkedLinesFailsOnlyWhenEmpty` | Editor/ShaderMaster.cs:175-177 | The rewrite fails exactly when the file has no line, since reading line 0 then throws. |
| `ForcedCompilation.MarkerLineReplaced` | Editor/ShaderMaster.cs:177-180 | When line 0 holds the marker, the result has the same length, line 0 is the new line and every other line is unchanged. |
| `ForcedCompilation.MarkerLineInserted` | Editor/ShaderMaster.cs:181-186 | Otherwise the result is one line longer, starts with the new line and then has the old lines in order. |
| `ForcedCompilation.RewriteTwiceIsRewriteOnce` | Editor/ShaderMaster.cs:166-186 | Rewriting with one stamp line and then another gives the same file as rewriting once with the second. |
| `ForcedCompilation.RewriteIdempotent` | Editor/ShaderMaster.cs:177-186 | Rewriting twice with the same stamp line gives the same file as rewriting once. |
| `ForcedCompilation.RewrittenOnceShape` | Editor/ShaderMaster.cs:177-186 | A file rewritten once has the marker in line 0, has grown by one line only if the marker was missing, and keeps all its other lines in order. |
| `ForcedCompilation.RewrittenOnceAgain` | Editor/ShaderMaster.cs:166-186 | Another run over a file that was already rewritten still leaves it rewritten once, so repeated runs never add a second line. |
| `ForcedCompilation.RewriteMarkerLine` | Editor/ShaderMaster.cs:175-186 | On the array of lines, an empty file fails. A marked line 0 is overwritten in the same array. Otherwise a fresh array holds the new line and then the old ones, and the input array is unchanged. Either way the contents equal the value-level rewrite. |
| `ForcedCompilation.IsValidFolder` | Editor/ShaderMaster.cs:423-433 | A null object is not a valid folder; otherwise the object's asset path must be a folder. `ForcedCompilation.FolderField` relies on it. |
| `ForcedCompilation.FolderField` | Editor/ShaderMaster.cs:407-421 | The field holds either the picked object or null, never anything but null or a valid folder, and a picked valid folder is kept. |
| `ForcedCompilation.CompilationFolder` | Editor/ShaderMaster.cs:147-148 | The folder worked on is the chosen one, or `Assets` when none is chosen; it is never empty. |
| `ForcedCompilation.RewriteShaders` | Editor/ShaderMaster.cs:160-190 | The loop over the shader paths as a value; `ForcedCompilation.RewriteShadersFrame`, `ForcedCompilation.RewriteShadersCompleted` and `ForcedCompilation.PrefixRunStops` state what it does. |
| `ForcedCompilation.RewriteShadersFrame` | Editor/ShaderMaster.cs:160-190 | The loop over shaders never adds or removes a file, and it leaves every file that is not a shader of the folder unchanged. |
| `ForcedCompilation.RewriteShadersCompleted` | Editor/ShaderMaster.cs:160-190 | When the loop completes, every shader file is rewritten as if by one run, even when its path came up more than once. |
| `ForcedCompilation.PrefixRunStops` | Editor/ShaderMaster.cs:161-190 | Once a file is missing or empty, the loop stops and later shaders are not touched. |
| `ForcedCompilation.ForceShaderCompilation` | Editor/ShaderMaster.cs:145-192 | A declined dialog writes nothing. An invalid folder is reported and writes nothing. Otherwise the files written and the outcome (completed, or aborted at the first missing or empty shader) are those of the loop. |
| `CgincOccurrence.MentionsIgnoresCase` | Editor/ShaderMaster.cs:230-232 | Lower-casing the text and searching for the lower-cased name followed by `.cginc` is a case-insensitive search for `name + ".cginc"`. |
| `CgincOccurrence.HasCgincPath` | Editor/ShaderMaster.cs:218-219 | The case-sensitive test `path.Contains(".cginc")` on a text asset's path; `CgincOccurrence.CandidateGuids` applies it. |
| `CgincOccurrence.RefersTo` | Editor/ShaderMaster.cs:228-232 | The per-candidate test of the matching loop: the path is not empty and its file satisfies `CgincOccurrence.Mentions`; `CgincOccurrence.MatchReferences` filters with it. |
| `CgincOccurrence.Mentions` | Editor/ShaderMaster.cs:230-232 | The test `text.ToLower().Contains(name.ToLower() + ".cginc")`; `CgincOccurrence.MentionsIgnoresCase` shows it ignores case. |
| `CgincOccurrence.References` | Editor/ShaderMaster.cs:213-234 | The list the section shows for an include, as a value; `CgincOccurrence.ReferencesOrder` and `CgincOccurrence.ReferencesMembers` characterise it. |
| `CgincOccurrence.CandidateGuids` | Editor/ShaderMaster.cs:213-222 | The candidates are the text assets whose path contains `.cginc` (case-sensitive), in database order, followed by all shaders. |
| `CgincOccurrence.MatchReferences` | Editor/ShaderMaster.cs:224-234 | The result holds, in candidate order, exactly the non-empty candidate paths whose file mentions the include. |
| `CgincOccurrence.ReferencesOrder` | Editor/ShaderMaster.cs:213-234 | The referring include files come first in database order, then the referring shaders in database order. |
| `CgincOccurrence.ReferencesMembers` | Editor/ShaderMaster.cs:213-234 | A path is listed exactly when it is non-empty, its text contains `name + ".cginc"` in any case, and it belongs to an include-named text asset or to a shader. |
| `CgincOccurrence.OccurrenceView.Refresh` | Editor/ShaderMaster.cs:203-237 | If the chosen include is unchanged since the last redraw, the list is kept. If it changed to nothing, the list is cleared. If it changed to an include, the list is the search result for its name. Either way the last include is updated. |
| `MaterialMenu.ToggledFlagsValues` | Editor/ShaderMaster.cs:24-26 | The toggle always leaves None or NotEditable, and leaves None exactly when the flags were NotEditable. |
| `MaterialMenu.ToggleTwiceRestores` | Editor/ShaderMaster.cs:24-26 | From None or NotEditable, toggling twice restores the original flags. |
| `MaterialMenu.ToggleDropsOtherFlags` | Editor/ShaderMaster.cs:24-26 | Any other flag value becomes NotEditable, so toggling twice gives None rather than the original value. |
| `MaterialMenu.ToggledFlags` | Editor/ShaderMaster.cs:24-26 | The flag value Toggle Editable sets; `MaterialMenu.ToggledFlagsValues`, `MaterialMenu.ToggleTwiceRestores` and `MaterialMenu.ToggleDropsOtherFlags` characterise it. |
| `MaterialMenu.ToggleEditable` | Editor/ShaderMaster.cs:21-30 | Only the material's hide flags change, and they change to the toggled value. |
| `MaterialMenu.PasteGuardCases` | Editor/ShaderMaster.cs:41-52 | The warning case is exactly "nothing copied". A paste happens exactly when something was copied and the target is a different, non-null material. |
| `MaterialMenu.PasteGuard` | Editor/ShaderMaster.cs:41-52 | The paste guard on the stored copy and the target; `MaterialMenu.PasteGuardCases` characterises it. |
| `MaterialMenu.Clipboard.DoMaterialCopy` | Editor/ShaderMaster.cs:33-36 | Copy stores the context material. |
| `MaterialMenu.Clipboard.DoMaterialPaste` | Editor/ShaderMaster.cs:39-53 | The outcome follows the guard. A paste gives the target the stored material's current shader and properties and keeps its hide flags. Otherwise the target is unchanged. |
| `MaterialMenu.CopyThenPaste` | Editor/ShaderMaster.cs:33-53 | Copying one material and pasting onto another leaves the target with the source's shader and properties. |
| `MaterialMenu.PasteSeesLaterEdits` | Editor/ShaderMaster.cs:35-51 | The copy is a reference, so edits made to the source after the copy are what gets pasted. |
| `MaterialMenu.PasteOntoSourceIsNoOp` | Editor/ShaderMaster.cs:41-52 | Pasting with nothing copied, or onto the copied material itself, changes nothing. |

## Left out

- Window drawing is not modelled: `OnGUI`, `DrawHeader` and its overloads, `BeginHeader`, `DrawScrollView` and `DrawHorizontalLine`. These render controls. The TextAsset overload of `DrawHeader` also filters the pick with a `.cginc` check on the chosen include (lines 473-477), so `OccurrenceView.cginc` is taken as already chosen. `FolderField` also filters the picked object, and that filter is modelled (`ForcedCompilation.FolderField`, with `ForcedCompilation.IsValidFolder`).
- The keyword sections `DrawMaterialKeywords` and `DrawGlobalKeywords` are not modelled. Besides drawing, they switch shader keywords on and off (lines 303, 328 and 333). That is host state with no logic in this repository.
- `DrawShaderOccurence`, `Create`, the `Open` overloads and the `Open in Shader Master` menu commands fall outside the modelled rules. They are further asset-database glue and a file-creation template.
- Asset-database and selection calls become inputs. `Selection.GetFiltered` is a sequence. `FindAssets` is a sequence of GUIDs or paths. `GUIDToAssetPath` and `GetAssetPath` are a function or an optional path. `IsValidFolder` is a set of folder paths. `ImportAsset`, `SetDirty` and `SaveAssets` have no modelled effect.
- File contents become inputs. The files read by `ReadAllLines` are a map from asset path to lines, and `ReadAllText` is a total function from path to text. The absolute path built from `Application.dataPath` and the `OpenRead`/`Debug.Log` probe are not modelled. A missing file in the occurrence search would throw in the source; the model has no counterpart for that.
- The clock (`System.DateTime.Now`) is the input `stamp`, one opaque reading per loop iteration. The confirmation dialog is the input `confirmed`.
- `Text.Lower`: models `ToLower` for ASCII letters only. The .NET method is culture-sensitive and also maps non-ASCII letters.
- `CopyPropertiesFromMaterial` is modelled as overwriting the target's whole property map with the source's. The shader-keyword enable and disable calls are not modelled.
- Hide flags are a plain integer. In Unity they are a flags enum, and the source compares the whole value, not the NotEditable bit.
- ForceShaderCompilation: its `chosenPath` is not tied to the result of `FolderField`. In the source `compilationFolder` is always null or a folder when it was picked. The model accepts any chosen path, so it also covers paths that never occur. In the source the check at line 154 almost never fires: `FolderField` checks the folder again at line 140, in the same pass as the button at line 141. The model keeps the check because it accepts any chosen path.
- A stored material that was destroyed after being copied counts as null in Unity. The model does not track destruction.
