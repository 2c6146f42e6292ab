/**
 * copyProp, setVal and hasIgnoreField: matching the source's leaves against
 * the target's by bare name and kind, and overwriting the target's storage
 * in place.
 */
module Copy {
  import opened Reflect
  import opened Fields

  datatype Option<T> = None | Some(value: T)

  /** The two knobs of a copy: skip zero source values, and the target names never to write. */
  datatype Policy = Policy(ignoreDefaultVal: bool, ignoreField: seq<string>)

  /** Every entry's handle addresses a slot of storage holding n values. */
  predicate SlotsBelow(infos: seq<FieldInfo>, n: nat) {
    forall k :: 0 <= k < |infos| ==> infos[k].val.slot < n
  }

  /** No two entries share a storage slot, as in any list getFields builds. */
  predicate DistinctSlots(infos: seq<FieldInfo>) {
    forall j1, j2 :: 0 <= j1 < j2 < |infos| ==> infos[j1].val.slot != infos[j2].val.slot
  }

  /** A source leaf is a candidate for a target leaf: same bare name, same kind. */
  predicate Matches(source: FieldInfo, target: FieldInfo) {
    source.name == target.name && source.kind == target.kind
  }

  /** The target leaf is on the exclusion list. */
  predicate Excluded(target: FieldInfo, p: Policy) {
    |p.ignoreField| > 0 && target.name in p.ignoreField
  }

  /** setVal writes v unless zero values are to be skipped and v is zero. */
  predicate Writes(ignoreDefaultVal: bool, v: Value) {
    !ignoreDefaultVal || !IsZero(v)
  }

  /** Target storage after setVal offers source value v to the leaf in `slot`. */
  function Assigned(ignoreDefaultVal: bool, v: Value, tv: seq<Value>, slot: nat): (r: seq<Value>)
    requires slot < |tv|
    ensures |r| == |tv|
  {
    if Writes(ignoreDefaultVal, v) then tv[slot := v] else tv
  }

  /** One iteration of copyProp's inner loop: the pair (source, target). */
  function Step(source: FieldInfo, target: FieldInfo, sv: seq<Value>, tv: seq<Value>, p: Policy): (r: seq<Value>)
    requires source.val.slot < |sv| && target.val.slot < |tv|
    ensures |r| == |tv|
  {
    if Matches(source, target) && !Excluded(target, p) then
      Assigned(p.ignoreDefaultVal, sv[source.val.slot], tv, target.val.slot)
    else
      tv
  }

  /** copyProp's inner loop: one source leaf against every target leaf in order. */
  function Row(source: FieldInfo, targets: seq<FieldInfo>, sv: seq<Value>, tv: seq<Value>, p: Policy): (r: seq<Value>)
    requires source.val.slot < |sv| && SlotsBelow(targets, |tv|)
    ensures |r| == |tv|
    decreases |targets|
  {
    if |targets| == 0 then tv
    else
      var n := |targets| - 1;
      Step(source, targets[n], sv, Row(source, targets[..n], sv, tv, p), p)
  }

  /**
   * copyProp as a whole: target storage after every source leaf (outer loop)
   * has been tried against every target leaf (inner loop).
   */
  function CopyAll(sources: seq<FieldInfo>, targets: seq<FieldInfo>, sv: seq<Value>, tv: seq<Value>, p: Policy): (r: seq<Value>)
    requires SlotsBelow(sources, |sv|) && SlotsBelow(targets, |tv|)
    ensures |r| == |tv|
    decreases |sources|
  {
    if |sources| == 0 then tv
    else
      var n := |sources| - 1;
      Row(sources[n], targets, sv, CopyAll(sources[..n], targets, sv, tv, p), p)
  }

  /** The pair (source, target) overwrites the target leaf when copyProp reaches it. */
  predicate Effective(source: FieldInfo, target: FieldInfo, sv: seq<Value>, p: Policy)
    requires source.val.slot < |sv|
  {
    Matches(source, target) && !Excluded(target, p) && Writes(p.ignoreDefaultVal, sv[source.val.slot])
  }

  /** Some target entry addressing `slot` is overwritten by `source`. */
  predicate RowHits(source: FieldInfo, targets: seq<FieldInfo>, sv: seq<Value>, slot: nat, p: Policy)
    requires source.val.slot < |sv|
  {
    exists j :: 0 <= j < |targets| && targets[j].val.slot == slot && Effective(source, targets[j], sv, p)
  }

  /**
   * Reference definition of who writes a target slot last: the index of the
   * last source leaf that overwrites `slot`, or None when no source leaf does.
   */
  function LastWriter(sources: seq<FieldInfo>, targets: seq<FieldInfo>, sv: seq<Value>, slot: nat, p: Policy): (r: Option<nat>)
    requires SlotsBelow(sources, |sv|)
    ensures r.None? <==> forall i :: 0 <= i < |sources| ==> !RowHits(sources[i], targets, sv, slot, p)
    ensures r.Some? ==> r.value < |sources| && RowHits(sources[r.value], targets, sv, slot, p)
    ensures r.Some? ==> forall i :: r.value < i < |sources| ==> !RowHits(sources[i], targets, sv, slot, p)
    decreases |sources|
  {
    if |sources| == 0 then None
    else
      var n := |sources| - 1;
      if RowHits(sources[n], targets, sv, slot, p) then Some(n)
      else LastWriter(sources[..n], targets, sv, slot, p)
  }

  /** Within one row every write carries the same source value. */
  lemma {:induction false} RowAt(source: FieldInfo, targets: seq<FieldInfo>, sv: seq<Value>, tv: seq<Value>, p: Policy, slot: nat)
    requires source.val.slot < |sv| && SlotsBelow(targets, |tv|) && slot < |tv|
    ensures Row(source, targets, sv, tv, p)[slot]
         == if RowHits(source, targets, sv, slot, p) then sv[source.val.slot] else tv[slot]
    decreases |targets|
  {
    if |targets| > 0 {
      var n := |targets| - 1;
      var front := targets[..n];
      RowAt(source, front, sv, tv, p, slot);
      if RowHits(source, front, sv, slot, p) {
        var j :| 0 <= j < |front| && front[j].val.slot == slot && Effective(source, front[j], sv, p);
        assert targets[j] == front[j];
      }
    }
  }

  /**
   * Closed form of copyProp: each target slot ends up holding the value of
   * its last writer, or its previous value when nothing writes it.
   */
  lemma {:induction false} CopyAllAt(sources: seq<FieldInfo>, targets: seq<FieldInfo>, sv: seq<Value>, tv: seq<Value>, p: Policy, slot: nat)
    requires SlotsBelow(sources, |sv|) && SlotsBelow(targets, |tv|) && slot < |tv|
    ensures CopyAll(sources, targets, sv, tv, p)[slot]
         == match LastWriter(sources, targets, sv, slot, p)
            case None => tv[slot]
            case Some(i) => sv[sources[i].val.slot]
    decreases |sources|
  {
    if |sources| > 0 {
      var n := |sources| - 1;
      var front := sources[..n];
      assert SlotsBelow(front, |sv|);
      CopyAllAt(front, targets, sv, tv, p, slot);
      RowAt(sources[n], targets, sv, CopyAll(front, targets, sv, tv, p), p, slot);
    }
  }

  /**
   * A target leaf is written only through a source leaf of the same name and
   * kind: with no such partner it keeps its prior value.
   */
  lemma UnmatchedKept(sources: seq<FieldInfo>, targets: seq<FieldInfo>, sv: seq<Value>, tv: seq<Value>, p: Policy, slot: nat)
    requires SlotsBelow(sources, |sv|) && SlotsBelow(targets, |tv|) && slot < |tv|
    requires forall i, j :: 0 <= i < |sources| && 0 <= j < |targets| && targets[j].val.slot == slot
               ==> !Matches(sources[i], targets[j])
    ensures CopyAll(sources, targets, sv, tv, p)[slot] == tv[slot]
  {
    CopyAllAt(sources, targets, sv, tv, p, slot);
  }

  /** A target leaf whose name is on the exclusion list is never written. */
  lemma ExcludedKept(sources: seq<FieldInfo>, targets: seq<FieldInfo>, sv: seq<Value>, tv: seq<Value>, p: Policy, slot: nat)
    requires SlotsBelow(sources, |sv|) && SlotsBelow(targets, |tv|) && slot < |tv|
    requires forall j :: 0 <= j < |targets| && targets[j].val.slot == slot ==> targets[j].name in p.ignoreField
    ensures CopyAll(sources, targets, sv, tv, p)[slot] == tv[slot]
  {
    CopyAllAt(sources, targets, sv, tv, p, slot);
  }

  /**
   * When zero values are skipped, a target leaf all of whose candidate
   * sources hold zero keeps its previous value (it is not reset to zero).
   */
  lemma ZeroSourceKept(sources: seq<FieldInfo>, targets: seq<FieldInfo>, sv: seq<Value>, tv: seq<Value>, p: Policy, slot: nat)
    requires SlotsBelow(sources, |sv|) && SlotsBelow(targets, |tv|) && slot < |tv|
    requires p.ignoreDefaultVal
    requires forall i, j ::
               (0 <= i < |sources| && 0 <= j < |targets| && targets[j].val.slot == slot && Matches(sources[i], targets[j]))
               ==> IsZero(sv[sources[i].val.slot])
    ensures CopyAll(sources, targets, sv, tv, p)[slot] == tv[slot]
  {
    CopyAllAt(sources, targets, sv, tv, p, slot);
  }

  /**
   * The last write wins: if the pair (i, j) overwrites a target slot and no
   * later source leaf (in copyProp's outer loop) does, the slot ends up
   * holding source leaf i's value.
   */
  lemma LastWriteWins(sources: seq<FieldInfo>, targets: seq<FieldInfo>, sv: seq<Value>, tv: seq<Value>, p: Policy, i: nat, j: nat)
    requires SlotsBelow(sources, |sv|) && SlotsBelow(targets, |tv|)
    requires i < |sources| && j < |targets| && Effective(sources[i], targets[j], sv, p)
    requires forall i', j' :: i < i' < |sources| && 0 <= j' < |targets| && targets[j'].val.slot == targets[j].val.slot
               ==> !Effective(sources[i'], targets[j'], sv, p)
    ensures CopyAll(sources, targets, sv, tv, p)[targets[j].val.slot] == sv[sources[i].val.slot]
  {
    var slot := targets[j].val.slot;
    CopyAllAt(sources, targets, sv, tv, p, slot);
    assert RowHits(sources[i], targets, sv, slot, p);
  }

  /**
   * Without zero suppression, the last candidate source leaf's value is
   * copied even when it is zero.
   */
  lemma ZeroCopiedWhenNotSuppressed(sources: seq<FieldInfo>, targets: seq<FieldInfo>, sv: seq<Value>, tv: seq<Value>, p: Policy, i: nat, j: nat)
    requires SlotsBelow(sources, |sv|) && SlotsBelow(targets, |tv|)
    requires i < |sources| && j < |targets| && Matches(sources[i], targets[j])
    requires !p.ignoreDefaultVal && targets[j].name !in p.ignoreField
    requires forall i', j' :: i < i' < |sources| && 0 <= j' < |targets| && targets[j'].val.slot == targets[j].val.slot
               ==> !Matches(sources[i'], targets[j'])
    ensures CopyAll(sources, targets, sv, tv, p)[targets[j].val.slot] == sv[sources[i].val.slot]
  {
    LastWriteWins(sources, targets, sv, tv, p, i, j);
  }

  /**
   * Copying twice with the same source values and policy leaves the target
   * as copying once does.
   */
  lemma Idempotent(sources: seq<FieldInfo>, targets: seq<FieldInfo>, sv: seq<Value>, tv: seq<Value>, p: Policy)
    requires SlotsBelow(sources, |sv|) && SlotsBelow(targets, |tv|)
    ensures var once := CopyAll(sources, targets, sv, tv, p);
            CopyAll(sources, targets, sv, once, p) == once
  {
    var once := CopyAll(sources, targets, sv, tv, p);
    var twice := CopyAll(sources, targets, sv, once, p);
    forall slot | 0 <= slot < |tv|
      ensures twice[slot] == once[slot]
    {
      CopyAllAt(sources, targets, sv, tv, p, slot);
      CopyAllAt(sources, targets, sv, once, p, slot);
    }
  }

  /** Every target slot holds a value of its leaf's kind. */
  predicate KindsHeld(infos: seq<FieldInfo>, vals: seq<Value>)
    requires SlotsBelow(infos, |vals|)
  {
    forall j :: 0 <= j < |infos| ==> HasKind(vals[infos[j].val.slot], infos[j].kind)
  }

  /**
   * Since only same-kind pairs are copied, a target whose leaves hold values
   * of their kinds still does afterwards.
   */
  lemma KindsPreserved(sources: seq<FieldInfo>, targets: seq<FieldInfo>, sv: seq<Value>, tv: seq<Value>, p: Policy)
    requires SlotsBelow(sources, |sv|) && SlotsBelow(targets, |tv|) && DistinctSlots(targets)
    requires KindsHeld(sources, sv) && KindsHeld(targets, tv)
    ensures KindsHeld(targets, CopyAll(sources, targets, sv, tv, p))
  {
    var r := CopyAll(sources, targets, sv, tv, p);
    forall j | 0 <= j < |targets|
      ensures HasKind(r[targets[j].val.slot], targets[j].kind)
    {
      var slot := targets[j].val.slot;
      CopyAllAt(sources, targets, sv, tv, p, slot);
      var w := LastWriter(sources, targets, sv, slot, p);
      if w.Some? {
        var j' :| 0 <= j' < |targets| && targets[j'].val.slot == slot && Effective(sources[w.value], targets[j'], sv, p);
        assert j' == j;
      }
    }
  }

  /**
   * The pairs copyProp writes are ones Value.Set accepts: reflect marks
   * neither side read-only, and the types are assignable.
   */
  predicate CanSet(from: Handle, to: Handle) {
    !from.readOnly && !to.readOnly && AssignableTo(from.typ, to.typ)
  }

  predicate SafeWrites(sources: seq<FieldInfo>, targets: seq<FieldInfo>, sv: seq<Value>, p: Policy)
    requires SlotsBelow(sources, |sv|)
  {
    forall i, j :: 0 <= i < |sources| && 0 <= j < |targets| && Effective(sources[i], targets[j], sv, p)
      ==> CanSet(sources[i].val, targets[j].val)
  }

  /** hasIgnoreField: a search of the exclusion list that stops at the first hit. */
  method HasIgnoreField(fieldName: string, ignoreField: seq<string>) returns (found: bool)
    ensures found <==> fieldName in ignoreField
  {
    for i := 0 to |ignoreField|
      invariant fieldName !in ignoreField[..i]
    {
      if fieldName == ignoreField[i] {
        return true;
      }
    }
    assert ignoreField[..|ignoreField|] == ignoreField;
    return false;
  }

  /**
   * setVal: overwrites the target leaf's storage with the source leaf's value,
   * unless zero values are skipped and the source value is zero.
   */
  method SetVal(ignoreDefaultVal: bool, source: FieldInfo, target: FieldInfo, src: array<Value>, dst: array<Value>)
    requires src != dst
    requires source.val.slot < src.Length && target.val.slot < dst.Length
    requires Writes(ignoreDefaultVal, src[source.val.slot]) ==> CanSet(source.val, target.val)
    modifies dst
    ensures dst[..] == Assigned(ignoreDefaultVal, src[source.val.slot], old(dst[..]), target.val.slot)
  {
    if ignoreDefaultVal {
      if !IsZero(src[source.val.slot]) {
        dst[target.val.slot] := src[source.val.slot];
      }
    } else {
      dst[target.val.slot] := src[source.val.slot];
    }
  }

  /**
   * copyProp: tries every source leaf against every target leaf and lets
   * setVal write each matching, non-excluded pair into target storage.
   */
  method CopyProp(sourceFieldInfo: seq<FieldInfo>, targetFieldInfo: seq<FieldInfo>,
                  src: array<Value>, dst: array<Value>, p: Policy)
    requires src != dst
    requires SlotsBelow(sourceFieldInfo, src.Length) && SlotsBelow(targetFieldInfo, dst.Length)
    requires SafeWrites(sourceFieldInfo, targetFieldInfo, src[..], p)
    modifies dst
    ensures dst[..] == CopyAll(sourceFieldInfo, targetFieldInfo, src[..], old(dst[..]), p)
  {
    ghost var sv := src[..];
    for i := 0 to |sourceFieldInfo|
      invariant dst[..] == CopyAll(sourceFieldInfo[..i], targetFieldInfo, sv, old(dst[..]), p)
    {
      var source := sourceFieldInfo[i];
      ghost var before := dst[..];
      assert sourceFieldInfo[..i + 1][..i] == sourceFieldInfo[..i];
      for j := 0 to |targetFieldInfo|
        invariant dst[..] == Row(source, targetFieldInfo[..j], sv, before, p)
      {
        var target := targetFieldInfo[j];
        assert targetFieldInfo[..j + 1][..j] == targetFieldInfo[..j];
        if source.name == target.name && source.kind == target.kind {
          if |p.ignoreField| > 0 {
            var ignored := HasIgnoreField(target.name, p.ignoreField);
            if !ignored {
              SetVal(p.ignoreDefaultVal, source, target, src, dst);
            }
          } else {
            SetVal(p.ignoreDefaultVal, source, target, src, dst);
          }
        }
      }
      assert targetFieldInfo[..|targetFieldInfo|] == targetFieldInfo;
    }
    assert sourceFieldInfo[..|sourceFieldInfo|] == sourceFieldInfo;
  }
}
