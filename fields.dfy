/**
 * getFields: flattening a struct into the list of its leaf fields,
 * depth-first and in declaration order, under their bare names.
 */
module Fields {
  import opened Reflect

  /**
   * One declared field of a struct type, as reflect.Type.Field(i) reports it:
   * whether its name is exported and whether it is an embedded (anonymous)
   * field. `fields` lists the members of a struct-kinded field; it is ignored
   * for every other kind.
   */
  datatype FieldDecl = FieldDecl(name: string, kind: Kind, typ: TypeId, exported: bool, embedded: bool,
                                 fields: seq<FieldDecl>)

  /**
   * What a reflect.Value of a leaf field gives the copier: the storage slot it
   * reads and writes, the field's type, and whether it was reached through an
   * unexported field (such a value can be read but not used by Set).
   */
  datatype Handle = Handle(slot: nat, typ: TypeId, readOnly: bool)

  /**
   * Whether reflect marks the Value of field `f` read-only, when the struct
   * holding it was reached through a non-embedded unexported field (`ro`):
   * an unexported field is read-only, embedded or not.
   */
  function LeafReadOnly(f: FieldDecl, ro: bool): bool {
    ro || !f.exported
  }

  /**
   * What `ro` is for the members of struct field `f`: reflect passes on the
   * read-only mark of a non-embedded unexported field to everything below it,
   * but not that of an embedded one, whose exported members stay settable.
   */
  function MembersReadOnly(f: FieldDecl, ro: bool): bool {
    ro || (!f.exported && !f.embedded)
  }

  /** One entry of the flattened list: the fieldInfo record. */
  datatype FieldInfo = FieldInfo(kind: Kind, name: string, val: Handle)

  /**
   * hasValStructAndPtr: getFields descends into exactly the fields that are
   * not leaves, and never appends a struct or a pointer as a leaf.
   */
  predicate HasValStructAndPtr(k: Kind)
    ensures k != Invalid ==> (HasValStructAndPtr(k) <==> !IsLeafKind(k))
    ensures !HasValStructAndPtr(k) ==> k != Struct && k != Ptr
  {
    k == Struct || k == Ptr
  }

  /**
   * Declarations getFields walks without panicking: it calls NumField on every
   * field it descends into, which panics for a pointer, so no field at any
   * depth is a pointer (and a struct field never has the Invalid kind).
   */
  predicate Walkable(decls: seq<FieldDecl>)
    decreases decls
  {
    forall i :: 0 <= i < |decls| ==> WalkableField(decls[i])
  }

  predicate WalkableField(f: FieldDecl)
    decreases f
  {
    f.kind != Invalid && f.kind != Ptr && (f.kind == Struct ==> Walkable(f.fields))
  }

  /**
   * The entries getFields appends for the fields `decls` of a struct whose
   * first leaf sits in storage slot `base`; `ro` says whether the struct was
   * reached through a non-embedded unexported field. getFields only gets this
   * far for Walkable declarations; the list is defined for all of them.
   */
  function Flatten(decls: seq<FieldDecl>, base: nat, ro: bool): seq<FieldInfo>
    decreases decls
  {
    if |decls| == 0 then []
    else
      var front := Flatten(decls[..|decls| - 1], base, ro);
      front + FlattenField(decls[|decls| - 1], base + |front|, ro)
  }

  /** The entries one field contributes: itself if it is a leaf, else its struct's leaves. */
  function FlattenField(f: FieldDecl, base: nat, ro: bool): seq<FieldInfo>
    decreases f
  {
    if !HasValStructAndPtr(f.kind) then [FieldInfo(f.kind, f.name, Handle(base, f.typ, LeafReadOnly(f, ro)))]
    else Flatten(f.fields, base, MembersReadOnly(f, ro))
  }

  /**
   * Entries that are leaves and whose handles address consecutive storage
   * slots from `base` on.
   */
  predicate LeavesFrom(infos: seq<FieldInfo>, base: nat) {
    forall k :: 0 <= k < |infos| ==> infos[k].val.slot == base + k && IsLeafKind(infos[k].kind)
  }

  /**
   * The flattened list never holds a struct or pointer entry, and its handles
   * are one per storage slot, in order.
   */
  lemma {:induction false} FlattenShape(decls: seq<FieldDecl>, base: nat, ro: bool)
    requires Walkable(decls)
    ensures LeavesFrom(Flatten(decls, base, ro), base)
    decreases decls
  {
    if |decls| > 0 {
      var front := Flatten(decls[..|decls| - 1], base, ro);
      FlattenShape(decls[..|decls| - 1], base, ro);
      FlattenFieldShape(decls[|decls| - 1], base + |front|, ro);
    }
  }

  lemma {:induction false} FlattenFieldShape(f: FieldDecl, base: nat, ro: bool)
    requires WalkableField(f)
    ensures LeavesFrom(FlattenField(f, base, ro), base)
    ensures IsLeafKind(f.kind) ==> FlattenField(f, base, ro) == [FieldInfo(f.kind, f.name, Handle(base, f.typ, LeafReadOnly(f, ro)))]
    decreases f
  {
    if HasValStructAndPtr(f.kind) {
      FlattenShape(f.fields, base, MembersReadOnly(f, ro));
    }
  }

  /**
   * One iteration of getFields' loop: appending field i's entries to the
   * entries of the fields before it gives the entries of the first i + 1 fields.
   */
  lemma {:induction false} FlattenStep(decls: seq<FieldDecl>, i: nat, acc: seq<FieldInfo>, before: seq<FieldInfo>,
                    after: seq<FieldInfo>, ro: bool)
    requires i < |decls|
    requires before == acc + Flatten(decls[..i], |acc|, ro)
    requires after == before + FlattenField(decls[i], |before|, ro)
    ensures after == acc + Flatten(decls[..i + 1], |acc|, ro)
  {
    FlattenSnoc(decls, i, |acc|, ro);
  }

  /** The prefix of n + 1 fields flattens to the prefix of n fields followed by field n. */
  lemma {:induction false} FlattenSnoc(decls: seq<FieldDecl>, n: nat, base: nat, ro: bool)
    requires n < |decls|
    ensures Flatten(decls[..n + 1], base, ro)
         == Flatten(decls[..n], base, ro) + FlattenField(decls[n], base + |Flatten(decls[..n], base, ro)|, ro)
  {
    assert decls[..n + 1][..n] == decls[..n];
  }

  lemma DropLast(xs: seq<FieldDecl>, ys: seq<FieldDecl>)
    requires |ys| > 0
    ensures (xs + ys)[..|xs + ys| - 1] == xs + ys[..|ys| - 1]
    ensures (xs + ys)[|xs + ys| - 1] == ys[|ys| - 1]
  {
  }

  /**
   * Flattening a run of fields is flattening its two halves one after the
   * other: a field's leaves are spliced into the list exactly where the field
   * is declared.
   */
  lemma {:induction false} FlattenAppend(xs: seq<FieldDecl>, ys: seq<FieldDecl>, base: nat, ro: bool)
    ensures Flatten(xs + ys, base, ro) == Flatten(xs, base, ro) + Flatten(ys, base + |Flatten(xs, base, ro)|, ro)
    decreases |ys|
  {
    if |ys| > 0 {
      var ys', y := ys[..|ys| - 1], ys[|ys| - 1];
      FlattenAppend(xs, ys', base, ro);
      DropLast(xs, ys);
      var front := Flatten(xs, base, ro);
      var middle := Flatten(ys', base + |front|, ro);
      var last := FlattenField(y, base + |front| + |middle|, ro);
      assert Flatten(xs + ys, base, ro) == (front + middle) + last;
      assert Flatten(ys, base + |front|, ro) == middle + last;
    } else {
      assert xs + ys == xs;
    }
  }

  /**
   * The entries for a nested struct field are its members' entries: the
   * struct itself contributes no entry, and its leaves keep their own names.
   */
  lemma {:induction false} FlattenNested(xs: seq<FieldDecl>, f: FieldDecl, ys: seq<FieldDecl>, base: nat, ro: bool)
    requires f.kind == Struct
    ensures var front := Flatten(xs, base, ro);
            var inner := Flatten(f.fields, base + |front|, MembersReadOnly(f, ro));
            Flatten(xs + [f] + ys, base, ro)
            == front + inner + Flatten(ys, base + |front| + |inner|, ro)
  {
    FlattenAppend(xs, [f], base, ro);
    FlattenAppend(xs + [f], ys, base, ro);
    assert [f][..0] == [];
  }

  /**
   * getFields: walks the fields of a struct in declaration order, appending
   * each leaf to `acc` and descending into each struct field, so that the
   * result is `acc` followed by the struct's flattened leaves, numbered from
   * the first free slot.
   */
  method GetFields(decls: seq<FieldDecl>, ro: bool, acc: seq<FieldInfo>) returns (fieldValues: seq<FieldInfo>)
    requires Walkable(decls)
    ensures fieldValues == acc + Flatten(decls, |acc|, ro)
    decreases decls
  {
    fieldValues := acc;
    var i := 0;
    while i < |decls|
      invariant 0 <= i <= |decls|
      invariant fieldValues == acc + Flatten(decls[..i], |acc|, ro)
    {
      var field := decls[i];
      ghost var before := fieldValues;
      if !HasValStructAndPtr(field.kind) {
        fieldValues := fieldValues + [FieldInfo(field.kind, field.name, Handle(|fieldValues|, field.typ, LeafReadOnly(field, ro)))];
      }
      if HasValStructAndPtr(field.kind) {
        fieldValues := GetFields(field.fields, MembersReadOnly(field, ro), fieldValues);
      }
      FlattenStep(decls, i, acc, before, fieldValues, ro);
      i := i + 1;
    }
    assert decls[..i] == decls;
  }
}
