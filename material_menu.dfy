/**
 * The Material context-menu commands: toggling a material between editable
 * and not editable, and copying one material's shader and properties onto
 * another. Materials are objects, compared by reference as the editor does.
 */
module MaterialMenu {
  import opened Wrappers

  /** HideFlags.None. */
  const NONE: int := 0

  /** HideFlags.NotEditable. */
  const NOT_EDITABLE: int := 8

  /** A material: its shader, its serialized properties by name, and its hide flags. */
  class Material {
    var shader: string
    var properties: map<string, string>
    var hideFlags: int

    constructor (shader: string, properties: map<string, string>, hideFlags: int)
      ensures this.shader == shader && this.properties == properties && this.hideFlags == hideFlags
    {
      this.shader, this.properties, this.hideFlags := shader, properties, hideFlags;
    }
  }

  /** The flag value Toggle Editable sets: None when exactly NotEditable, NotEditable otherwise. */
  function ToggledFlags(flags: int): int {
    if flags == NOT_EDITABLE then NONE else NOT_EDITABLE
  }

  /** The toggle always leaves one of the two plain values, and None only when it was NotEditable. */
  lemma ToggledFlagsValues(flags: int)
    ensures ToggledFlags(flags) == NONE || ToggledFlags(flags) == NOT_EDITABLE
    ensures ToggledFlags(flags) == NONE <==> flags == NOT_EDITABLE
  {
  }

  /** From None or NotEditable, toggling twice restores the original value. */
  lemma ToggleTwiceRestores(flags: int)
    requires flags == NONE || flags == NOT_EDITABLE
    ensures ToggledFlags(ToggledFlags(flags)) == flags
  {
  }

  /**
   * Any other value is replaced by NotEditable, so combined flags are lost:
   * toggling twice from such a value gives None, not the value.
   */
  lemma ToggleDropsOtherFlags(flags: int)
    requires flags != NONE && flags != NOT_EDITABLE
    ensures ToggledFlags(flags) == NOT_EDITABLE
    ensures ToggledFlags(ToggledFlags(flags)) == NONE != flags
  {
  }

  /** Toggle Editable on the context material; nothing but its hide flags changes. */
  method ToggleEditable(m: Material)
    modifies m
    ensures m.hideFlags == ToggledFlags(old(m.hideFlags))
    ensures m.shader == old(m.shader) && m.properties == old(m.properties)
  {
    if m.hideFlags == NOT_EDITABLE {
      m.hideFlags := NONE;
    } else {
      m.hideFlags := NOT_EDITABLE;
    }
  }

  /** What a paste does. */
  datatype PasteOutcome =
    | NothingCopied  // no material was copied: a warning is logged
    | Skipped        // the target is missing or is the copied material itself
    | Pasted         // the copied material's shader and properties were written to the target

  /** The guard of Paste Material + Shader, on the stored copy and the target. */
  function PasteGuard<M(==)>(copied: Option<M>, target: Option<M>): PasteOutcome {
    if copied == None then NothingCopied
    else if target.Some? && target != copied then Pasted
    else Skipped
  }

  /** A paste happens exactly when something was copied and the target is another, existing material. */
  lemma PasteGuardCases<M>(copied: Option<M>, target: Option<M>)
    ensures PasteGuard(copied, target) == NothingCopied <==> copied == None
    ensures PasteGuard(copied, target) == Pasted <==>
      copied.Some? && target.Some? && target.value != copied.value
  {
  }

  /** The material copied last; the editor keeps it in a static field. */
  class Clipboard {
    var mat: Option<Material>

    constructor ()
      ensures mat == None
    {
      mat := None;
    }

    /** Copy Material + Shader: remember the context material. */
    method DoMaterialCopy(m: Material)
      modifies this
      ensures mat == Some(m)
    {
      mat := Some(m);
    }

    /**
     * Paste Material + Shader onto `target` (None for a null context). The
     * copied material's current shader and properties are written to the
     * target; on every other outcome nothing changes.
     */
    method DoMaterialPaste(target: Option<Material>) returns (outcome: PasteOutcome)
      modifies if target.Some? then {target.value} else {}
      ensures outcome == PasteGuard(mat, target)
      ensures outcome == Pasted ==>
        target.value.shader == old(mat.value.shader) &&
        target.value.properties == old(mat.value.properties) &&
        target.value.hideFlags == old(target.value.hideFlags) &&
        unchanged(mat.value)
      ensures outcome != Pasted && target.Some? ==> unchanged(target.value)
    {
      if mat == None {
        return NothingCopied;
      }
      if target.Some? && target != mat {
        var m := target.value;
        m.shader := mat.value.shader;
        m.properties := mat.value.properties;
        return Pasted;
      }
      return Skipped;
    }
  }

  /** Copying a material and pasting it onto another makes the two alike in shader and properties. */
  method CopyThenPaste(source: Material, target: Material)
    requires source != target
    modifies target
    ensures target.shader == source.shader && target.properties == source.properties
    ensures target.hideFlags == old(target.hideFlags) && unchanged(source)
  {
    var clipboard := new Clipboard();
    clipboard.DoMaterialCopy(source);
    var outcome := clipboard.DoMaterialPaste(Some(target));
    assert outcome == Pasted;
  }

  /**
   * The clipboard holds a reference, not a snapshot: properties the source
   * gains between copy and paste are the ones pasted.
   */
  method PasteSeesLaterEdits(source: Material, target: Material, edited: map<string, string>)
    requires source != target
    modifies source, target
    ensures target.properties == edited
  {
    var clipboard := new Clipboard();
    clipboard.DoMaterialCopy(source);
    source.properties := edited;
    var outcome := clipboard.DoMaterialPaste(Some(target));
    assert outcome == Pasted;
  }

  /** Pasting onto the copied material itself, or with nothing copied, changes nothing. */
  method PasteOntoSourceIsNoOp(clipboard: Clipboard, target: Material)
    requires clipboard.mat == None || clipboard.mat == Some(target)
    modifies target
    ensures unchanged(target)
  {
    var outcome := clipboard.DoMaterialPaste(Some(target));
    assert outcome != Pasted;
  }
}
