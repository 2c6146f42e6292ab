# bean: reflective struct-to-struct property copier, modelled in Dafny

The `bean` package copies field values from one Go struct into another
without either side declaring a mapping. `CopyPropertiesIgnoreFilter`
first checks that both arguments are pointers (`hasInPtr`). It then
flattens both structs with `getFields`: a depth-first walk, in declaration
order, that lists every leaf field as a `fieldInfo{Type, Name, Val}` and
descends into struct fields instead of listing them. Leaf names stay bare,
so a nested `Address.City` is listed as `City`. `copyProp` then tries
every source leaf against every target leaf. When the names and the kinds
are equal and the target name is not excluded (`hasIgnoreField`), it calls
`setVal`. `setVal` overwrites the target leaf in place, except that with
`ignoreDefaultVal` it skips a source value that is zero.

The model has five modules:

- `Reflect` (reflect.dfy) is the part of Go's `reflect` package the copier
  uses. It has `Kind`, a `Value` for leaf fields, the `HasKind` typing
  relation, `IsZero` (Value.IsZero for leaf kinds), and `AssignableTo`
  (the type check Value.Set makes). `AssignableTo` covers identical types,
  identical underlying types with one side unnamed, a bidirectional channel
  stored in a directional channel, and an interface stored in an interface
  whose methods it has.
- `Fields` (fields.dfy) is `getFields`. `FieldDecl` is a struct type's
  declared fields, as a finite tree. `Flatten` is the leaf list as a
  function. `GetFields` is the source's loop-and-recursion walk, proved to
  build exactly `Flatten`'s list. A leaf's handle (the `Val` of a
  `fieldInfo`) is modelled as the storage slot it addresses. It also
  records the field's type and whether reflect marks it read-only. An
  unexported field is read-only. Everything below a non-embedded unexported
  struct field is read-only too. The exported members of an embedded
  unexported struct stay settable.
- `Copy` (copy.dfy) holds `copyProp`, `setVal` and `hasIgnoreField`.
  - `CopyProp` runs the source's nested loops over a target storage
    `array<Value>` and writes it in place through `SetVal`.
  - Its postcondition ties the array to `CopyAll`. `CopyAll` is a fold in
    the same source-major, target-minor order.
  - `LastWriter` is an independent closed form: the last source leaf whose
    write reaches a slot. `CopyAllAt` proves that the fold agrees with it
    slot by slot.
  - The matching, exclusion, zero-value, last-write-wins, idempotence and
    typing lemmas follow from `CopyAllAt`.
- `Bean` (bean.dfy) holds the entry points. A struct instance is a class
  `Instance` whose leaf storage is an array. The argument of type
  `interface{}` is `Arg`. The guard is `HasInPtr`. There are the four
  public functions.
- `Scenarios` (scenarios.dfy) holds the `Person`/`PersonDto` structs of the
  package's tests and the outcomes those tests exercise.

`getFields` descends into pointer-kinded fields as well as struct fields
(bean.go:131-132). It then calls `NumField` on the pointer (bean.go:120),
and that panics. The model therefore requires that no field at any depth is
a pointer (`Fields.Walkable`). The package's one error is
`SourceOrTargetNotPtrError` (bean.go:21), and the model's `Error` has that
single value.

## Model

| member | source | states |
|---|---|---|
| `Fields.GetFields` | bean/bean.go:119-135 | walking the fields in declaration order, appending leaves and descending into struct fields, yields the incoming list followed by exactly the flattened leaves, numbered from the first free slot |
| `Fields.FlattenShape` | bean/bean.go:119-135 | the flattened list never holds a Struct or Ptr (or Invalid) entry, and its handles address consecutive storage slots, one per leaf, in order |
| `Fields.HasValStructAndPtr` | bean/bean.go:107-112 | getFields descends into exactly the fields that are not leaves (for every kind but Invalid), and never appends a struct or a pointer as a leaf |
| `Fields.FlattenFieldShape` | bean/bean.go:122-133 | one field contributes leaf entries only, at consecutive slots; a leaf field contributes exactly one entry, under its own name, kind and type, read-only when it is unexported or lies below a non-embedded unexported field |
| `Fields.FlattenAppend` | bean/bean.go:121-134 | flattening a run of fields is flattening its two halves one after the other (depth-first, declaration order) |
| `Fields.FlattenNested` | bean/bean.go:131-133 | a nested struct field contributes no entry of its own; its members' leaves are spliced in at its position, under their own bare names |
| `Copy.HasIgnoreField` | bean/bean.go:189-195 | the search with early return finds the name exactly when it is on the exclusion list |
| `Copy.SetVal` | bean/bean.go:172-182 | the target slot receives the source value unless zero values are skipped and the source value is zero; all other target slots are unchanged |
| `Copy.CopyProp` | bean/bean.go:147-163 | the nested loops leave target storage equal to the fold `CopyAll` of the old storage over every (source, target) pair in loop order; source storage is not written |
| `Copy.LastWriter` | bean/bean.go:148-162 | the last source leaf (in outer-loop order) that has a same-name, same-kind, non-excluded, written partner at the slot; None exactly when no source leaf has one |
| `Copy.RowAt` | bean/bean.go:149-160 | after one source leaf has been tried against every target leaf, a slot holds that source value if some target entry at the slot was written, and its earlier value otherwise |
| `Copy.CopyAllAt` | bean/bean.go:147-182 | each target slot ends up holding its last writer's value, or its previous value when nothing writes it |
| `Copy.UnmatchedKept` | bean/bean.go:150 | a target leaf with no source leaf of the same name and kind keeps its prior value (this includes the kind-mismatch case) |
| `Copy.ExcludedKept` | bean/bean.go:152-155 | a target leaf whose name is on the exclusion list is never written, whatever the source holds |
| `Copy.ZeroSourceKept` | bean/bean.go:174-177 | with zero values skipped, a target leaf whose candidate sources are all zero keeps its previous value; it is not reset to zero |
| `Copy.ZeroCopiedWhenNotSuppressed` | bean/bean.go:178-181 | without zero suppression, the last matching source leaf's value is copied even when it is zero |
| `Copy.LastWriteWins` | bean/bean.go:148-162 | when several source leaves qualify for one target leaf, the last qualifying write in source-major, target-minor order decides the final value |
| `Copy.Idempotent` | bean/bean.go:147-182 | copying again with the same source values and policy leaves the target as one copy does |
| `Copy.KindsPreserved` | bean/bean.go:150 | only same-kind pairs are copied, so every target leaf still holds a value of its own kind |
| `Bean.HasInPtr` | bean/bean.go:92-95 | an argument that is not a pointer offers the copy no storage to write |
| `Bean.CopyStructs` | bean/bean.go:79-85 | after the guard, both structs are flattened and the target's storage becomes the copy of the source's; the target stays a valid instance |
| `Bean.CopyPropertiesIgnoreFilter` | bean/bean.go:73-86 | the result is SourceOrTargetNotPtrError exactly when an argument is not a pointer, and then the target is untouched; otherwise the result is nil whatever was copied, and the target holds the copy |
| `Bean.CopyProperties` | bean/bean.go:36-38 | the general copy with zero values skipped and nothing excluded |
| `Bean.CopyPropertiesIgnoreDefaultVal` | bean/bean.go:49-51 | the general copy with the caller's zero-value policy and nothing excluded |
| `Bean.CopyPropertiesIgnoreField` | bean/bean.go:60-62 | the general copy with zero values skipped and the caller's exclusion list |
| `Scenarios.PersonFlattened` | bean/bean_test.go:21-37 | Person and PersonDto both flatten to Name, Age, City, Area at slots 0 to 3, with no entry for Address |
| `Scenarios.EmbeddedMembersSettable` | bean/bean.go:122-132 | the exported member of an embedded unexported struct is listed as settable; below a non-embedded unexported field, and for an unexported member, the entry is read-only |
| `Scenarios.ChannelIntoReceiveOnly` | bean/bean.go:150-158 | a `chan int` field is copied into a `<-chan int` field of the same name: the pair passes Value.Set's checks and the value is written |
| `Reflect.ChannelDirections` | bean/bean.go:176 | a `chan T` value may be set into a `<-chan T` or `chan<- T` field, a `<-chan T` value never into a `chan T` field, and two named types only when identical |
| `Scenarios.PersonWritesSafe` | bean/bean.go:172-182 | every pair copied between the two test structs passes Value.Set's checks, so the copies below do not panic |
| `Scenarios.CopyIntoEmptyPerson` | bean/bean_test.go:40-56 | copying the full dto into a new Person fills every field, nested ones included |
| `Scenarios.ZeroCityCopied` | bean/bean_test.go:80-99 | without zero suppression, the dto's empty City overwrites the Person's "shenz" |
| `Scenarios.ZeroCityKept` | bean/bean_test.go:82-92 | the same inputs with zero values skipped keep "shenz" |
| `Scenarios.NameExcluded` | bean/bean_test.go:101-118 | excluding "Name" keeps the Person's "xiaoqi" and copies the other fields |

## Left out

- The `reflect` machinery itself (`TypeOf`, `ValueOf().Elem()`, `NumField`, `Field`, `Set`, `IsZero`) is replaced by the `Reflect` datatypes. `getRefValue` is the `ToStruct` instance a pointer argument holds.
- Panics are preconditions, not modelled behaviour:
  - `hasInPtr(nil)` (Go's short-circuit at bean.go:75 means only the source, or the target after a pointer source, is checked).
  - A nil pointer, or a pointer to a non-struct, reaching `NumField`.
  - A pointer-kinded field at any depth.
  - `Set` on a leaf reflect marks read-only, or between types that are not assignable.
- `AssignableTo` leaves out a concrete type implementing an interface, because the copier only assigns between fields of the same kind.
- Copy.SetVal: requires distinct source and target arrays; writing a struct's storage from itself is not modelled.
- Copy.CopyProp: requires distinct source and target arrays; copying a struct onto itself or onto overlapping storage is not modelled.
- Bean.CopyStructs: requires the two instances to have distinct storage, for the same reason.
- Bean.CopyPropertiesIgnoreFilter: requires distinct storage (through `CopyReady`), for the same reason.
- Bean.CopyProperties: requires distinct storage, as Bean.CopyPropertiesIgnoreFilter does.
- Bean.CopyPropertiesIgnoreDefaultVal: requires distinct storage, as Bean.CopyPropertiesIgnoreFilter does.
- Bean.CopyPropertiesIgnoreField: requires distinct storage, as Bean.CopyPropertiesIgnoreFilter does.
- Cyclic struct types cannot be written: `FieldDecl` is a finite tree.
- Floating point: float and complex values are reals. From Go 1.22 on, IsZero reports -0.0 as zero, as the model does. Go 1.13 to 1.21 compared bits, so -0.0 was not zero there. NaN is not modelled.
- Integer widths: `int`, `uint` and `uintptr` are 64 bits wide. Widths matter only in the typing relation `HasKind`, because the copier does no arithmetic.
- Array values are not typed element by element. `IsZero` on an array means all its elements are zero.
- The tests' logging, JSON marshalling and benchmark timing are left out. The test outcomes are stated as the `Scenarios` lemmas about the copy, not as runs of the entry points.
- Concurrency: the package has none. Concurrent calls on one target are out of scope.
