/**
 * The package's entry points: the pointer guard, then getFields on both
 * structs, then copyProp into the target's storage.
 */
module Bean {
  import opened Reflect
  import opened Fields
  import opened Copy

  /**
   * A struct value in memory: its type's declared fields and the storage of
   * its leaves, one slot per leaf, in the order getFields lists them.
   */
  class Instance {
    const decls: seq<FieldDecl>
    const slots: array<Value>

    /** The entries getFields lists for this struct. */
    function Leaves(): seq<FieldInfo> {
      Flatten(decls, 0, false)
    }

    /**
     * The struct is one getFields can walk, its storage has one slot per leaf,
     * each leaf's handle addresses a slot of its own, and every slot holds a
     * value of its leaf's kind.
     */
    ghost predicate Valid()
      reads slots
    {
      && Walkable(decls)
      && slots.Length == |Leaves()|
      && SlotsBelow(Leaves(), slots.Length)
      && DistinctSlots(Leaves())
      && KindsHeld(Leaves(), slots[..])
    }

    constructor (decls: seq<FieldDecl>, vals: seq<Value>)
      requires Walkable(decls) && |vals| == |Flatten(decls, 0, false)|
      requires forall k :: 0 <= k < |vals| ==> HasKind(vals[k], Flatten(decls, 0, false)[k].kind)
      ensures Valid() && fresh(slots)
      ensures this.decls == decls && slots[..] == vals
    {
      this.decls := decls;
      slots := new Value[|vals|](k requires 0 <= k < |vals| => vals[k]);
      new;
      FlattenShape(decls, 0, false);
      SlotsOfValid(Flatten(decls, 0, false), vals);
    }
  }

  /**
   * For a list getFields builds, the handles are exactly the storage slots, so
   * the per-slot kind invariant of Instance is KindsHeld.
   */
  lemma SlotsOfValid(infos: seq<FieldInfo>, vals: seq<Value>)
    requires LeavesFrom(infos, 0) && |vals| == |infos|
    ensures SlotsBelow(infos, |vals|) && DistinctSlots(infos)
    ensures KindsHeld(infos, vals) <==> forall k :: 0 <= k < |vals| ==> HasKind(vals[k], infos[k].kind)
  {
  }

  /** What a pointer passed to the package points at. */
  datatype Pointee = NilPointer | ToStruct(obj: Instance) | ToNonStruct

  /** An argument as an interface{} holds it. */
  datatype Arg = NilInterface | NonPointer | Pointer(elem: Pointee)

  datatype Error = SourceOrTargetNotPtrError

  /**
   * hasInPtr: the argument's dynamic type is a pointer type. An argument that
   * fails it offers the copy no storage to write: it was passed by value.
   */
  predicate HasInPtr(a: Arg)
    requires a != NilInterface
    ensures !HasInPtr(a) ==> Storage(a) == {}
  {
    a.Pointer?
  }

  /** The storage a copy may write through the argument. */
  function Storage(a: Arg): set<object> {
    if a.Pointer? && a.elem.ToStruct? then {a.elem.obj.slots} else {}
  }

  /**
   * What the copy needs, once both arguments are pointers, to run without
   * panicking: both point at valid structs in distinct storage, and every
   * pair copyProp writes passes Value.Set's checks.
   */
  ghost predicate CopyReady(source: Arg, target: Arg, p: Policy)
    reads Storage(source), Storage(target)
  {
    && source.Pointer? && source.elem.ToStruct? && source.elem.obj.Valid()
    && target.Pointer? && target.elem.ToStruct? && target.elem.obj.Valid()
    && source.elem.obj.slots != target.elem.obj.slots
    && SafeWrites(source.elem.obj.Leaves(), target.elem.obj.Leaves(), source.elem.obj.slots[..], p)
  }

  /**
   * The part of CopyPropertiesIgnoreFilter after the guard: getFields on both
   * structs, then copyProp from the source's storage into the target's.
   */
  method CopyStructs(src: Instance, dst: Instance, p: Policy)
    requires src.Valid() && dst.Valid() && src.slots != dst.slots
    requires SafeWrites(src.Leaves(), dst.Leaves(), src.slots[..], p)
    modifies dst.slots
    ensures dst.Valid()
    ensures dst.slots[..] == CopyAll(src.Leaves(), dst.Leaves(), src.slots[..], old(dst.slots[..]), p)
  {
    var sourceFieldInfos := GetFields(src.decls, false, []);
    var targetFieldInfos := GetFields(dst.decls, false, []);
    assert sourceFieldInfos == src.Leaves() by { assert [] + src.Leaves() == src.Leaves(); }
    assert targetFieldInfos == dst.Leaves() by { assert [] + dst.Leaves() == dst.Leaves(); }
    ghost var sv, tv := src.slots[..], dst.slots[..];
    CopyProp(sourceFieldInfos, targetFieldInfos, src.slots, dst.slots, p);
    KindsPreserved(sourceFieldInfos, targetFieldInfos, sv, tv, p);
  }

  /**
   * CopyPropertiesIgnoreFilter: rejects a non-pointer argument before touching
   * anything; otherwise flattens both structs and copies every matching leaf,
   * and reports success whatever was or was not copied.
   */
  method CopyPropertiesIgnoreFilter(source: Arg, target: Arg, ignoreDefaultVal: bool, ignoreField: seq<string>)
    returns (err: Option<Error>)
    requires source != NilInterface
    requires HasInPtr(source) ==> target != NilInterface
    requires HasInPtr(source) && HasInPtr(target) ==> CopyReady(source, target, Policy(ignoreDefaultVal, ignoreField))
    modifies Storage(target)
    ensures err.Some? <==> !HasInPtr(source) || !HasInPtr(target)
    ensures err.Some? ==> unchanged(Storage(target))
    ensures err.None? ==>
              var src, dst := source.elem.obj, target.elem.obj;
              && dst.Valid()
              && dst.slots[..] == CopyAll(src.Leaves(), dst.Leaves(), old(src.slots[..]), old(dst.slots[..]),
                                          Policy(ignoreDefaultVal, ignoreField))
  {
    if !HasInPtr(source) || !HasInPtr(target) {
      return Some(SourceOrTargetNotPtrError);
    }
    CopyStructs(source.elem.obj, target.elem.obj, Policy(ignoreDefaultVal, ignoreField));
    return None;
  }

  /** CopyProperties: skips zero source values, excludes nothing. */
  method CopyProperties(source: Arg, target: Arg) returns (err: Option<Error>)
    requires source != NilInterface
    requires HasInPtr(source) ==> target != NilInterface
    requires HasInPtr(source) && HasInPtr(target) ==> CopyReady(source, target, Policy(true, []))
    modifies Storage(target)
    ensures err.Some? <==> !HasInPtr(source) || !HasInPtr(target)
    ensures err.Some? ==> unchanged(Storage(target))
    ensures err.None? ==>
              var src, dst := source.elem.obj, target.elem.obj;
              && dst.Valid()
              && dst.slots[..] == CopyAll(src.Leaves(), dst.Leaves(), old(src.slots[..]), old(dst.slots[..]), Policy(true, []))
  {
    err := CopyPropertiesIgnoreDefaultVal(source, target, true);
  }

  /** CopyPropertiesIgnoreDefaultVal: the caller picks the zero-value policy, excludes nothing. */
  method CopyPropertiesIgnoreDefaultVal(source: Arg, target: Arg, ignoreDefaultVal: bool) returns (err: Option<Error>)
    requires source != NilInterface
    requires HasInPtr(source) ==> target != NilInterface
    requires HasInPtr(source) && HasInPtr(target) ==> CopyReady(source, target, Policy(ignoreDefaultVal, []))
    modifies Storage(target)
    ensures err.Some? <==> !HasInPtr(source) || !HasInPtr(target)
    ensures err.Some? ==> unchanged(Storage(target))
    ensures err.None? ==>
              var src, dst := source.elem.obj, target.elem.obj;
              && dst.Valid()
              && dst.slots[..] == CopyAll(src.Leaves(), dst.Leaves(), old(src.slots[..]), old(dst.slots[..]),
                                          Policy(ignoreDefaultVal, []))
  {
    err := CopyPropertiesIgnoreFilter(source, target, ignoreDefaultVal, []);
  }

  /** CopyPropertiesIgnoreField: skips zero source values and the named target fields. */
  method CopyPropertiesIgnoreField(source: Arg, target: Arg, ignoreField: seq<string>) returns (err: Option<Error>)
    requires source != NilInterface
    requires HasInPtr(source) ==> target != NilInterface
    requires HasInPtr(source) && HasInPtr(target) ==> CopyReady(source, target, Policy(true, ignoreField))
    modifies Storage(target)
    ensures err.Some? <==> !HasInPtr(source) || !HasInPtr(target)
    ensures err.Some? ==> unchanged(Storage(target))
    ensures err.None? ==>
              var src, dst := source.elem.obj, target.elem.obj;
              && dst.Valid()
              && dst.slots[..] == CopyAll(src.Leaves(), dst.Leaves(), old(src.slots[..]), old(dst.slots[..]),
                                          Policy(true, ignoreField))
  {
    err := CopyPropertiesIgnoreFilter(source, target, true, ignoreField);
  }
}
