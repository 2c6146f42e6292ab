/**
 * The part of Go's reflect package that the property copier relies on:
 * the kind of a field, the value a leaf field holds, the zero test of
 * Value.IsZero, and the assignability check that Value.Set performs.
 */
module Reflect {

  /** reflect.Kind, in Go's declaration order. */
  datatype Kind =
    | Invalid
    | Bool
    | Int | Int8 | Int16 | Int32 | Int64
    | Uint | Uint8 | Uint16 | Uint32 | Uint64 | Uintptr
    | Float32 | Float64
    | Complex64 | Complex128
    | Array | Chan | Func | Interface | Map | Ptr | Slice | String | Struct
    | UnsafePointer

  /**
   * The value held by a leaf field. Signed and unsigned integers share IntV;
   * every reference-like kind (chan, func, interface, map, slice, unsafe
   * pointer) holds either NilV or a reference to some object, named by RefV.
   */
  datatype Value =
    | BoolV(b: bool)
    | IntV(i: int)
    | FloatV(f: real)
    | ComplexV(re: real, im: real)
    | StringV(s: string)
    | ArrayV(elems: seq<Value>)
    | NilV
    | RefV(addr: nat)

  /** A field of this kind is a leaf: getFields appends it instead of descending. */
  predicate IsLeafKind(k: Kind) {
    k != Invalid && k != Struct && k != Ptr
  }

  /** Whether v fits in a field of kind k; int, uint and uintptr are 64 bits wide. */
  predicate HasKind(v: Value, k: Kind) {
    match k
    case Bool => v.BoolV?
    case Int8 => v.IntV? && -0x80 <= v.i < 0x80
    case Int16 => v.IntV? && -0x8000 <= v.i < 0x8000
    case Int32 => v.IntV? && -0x8000_0000 <= v.i < 0x8000_0000
    case Int | Int64 => v.IntV? && -0x8000_0000_0000_0000 <= v.i < 0x8000_0000_0000_0000
    case Uint8 => v.IntV? && 0 <= v.i < 0x100
    case Uint16 => v.IntV? && 0 <= v.i < 0x1_0000
    case Uint32 => v.IntV? && 0 <= v.i < 0x1_0000_0000
    case Uint | Uint64 | Uintptr => v.IntV? && 0 <= v.i < 0x1_0000_0000_0000_0000
    case Float32 | Float64 => v.FloatV?
    case Complex64 | Complex128 => v.ComplexV?
    case String => v.StringV?
    case Array => v.ArrayV?
    case Chan | Func | Interface | Map | Slice | UnsafePointer => v.NilV? || v.RefV?
    case Invalid | Ptr | Struct => false
  }

  /**
   * Value.IsZero for the leaf kinds: false, 0, the empty string, nil, and an
   * array all of whose elements are zero.
   */
  predicate IsZero(v: Value) {
    match v
    case BoolV(b) => !b
    case IntV(i) => i == 0
    case FloatV(f) => f == 0.0
    case ComplexV(re, im) => re == 0.0 && im == 0.0
    case StringV(s) => |s| == 0
    case ArrayV(elems) => forall i :: 0 <= i < |elems| ==> IsZero(elems[i])
    case NilV => true
    case RefV(_) => false
  }

  /** The direction of a channel type: `<-chan T`, `chan<- T` or `chan T`. */
  datatype ChanDir = RecvDir | SendDir | BothDir

  /**
   * The underlying type of a Go type, as far as assignability looks into it:
   * a channel type by its direction and element type, an interface type by
   * its method set (one signature per method, sorted by name as reflect lists
   * them; an unexported method's signature names its package), and every
   * other type by its
   * type literal (`string`, `[]int`, `struct{...}` with its tags, ...).
   */
  datatype Underlying =
    | ChanOf(dir: ChanDir, elem: string)
    | InterfaceOf(methods: seq<string>)
    | Other(literal: string)

  /**
   * The identity of a Go type: its name ("" for a type literal such as
   * `struct{...}` or `[]int`) and its underlying type.
   */
  datatype TypeId = TypeId(name: string, underlying: Underlying)

  /**
   * reflect's channel special case: a bidirectional channel may be assigned
   * to a channel type of any direction with the same element type.
   */
  predicate ChannelAssignable(from: Underlying, to: Underlying) {
    from.ChanOf? && to.ChanOf? && from.dir == BothDir && from.elem == to.elem
  }

  /**
   * Assignment without conversion: identical types, or, when at least one of
   * the two is unnamed, identical underlying types or the channel case.
   */
  predicate DirectlyAssignable(from: TypeId, to: TypeId) {
    from == to
    || ((from.name == "" || to.name == "")
        && (from.underlying == to.underlying || ChannelAssignable(from.underlying, to.underlying)))
  }

  /**
   * An interface type is implemented by an interface type whose method set
   * includes all of its methods; every type implements an empty interface.
   */
  predicate Implements(from: TypeId, to: TypeId) {
    to.underlying.InterfaceOf? && from.underlying.InterfaceOf?
    && forall m :: m in to.underlying.methods ==> m in from.underlying.methods
  }

  /**
   * Go's assignability as Value.Set checks it for two types of the same kind:
   * directly assignable, or an interface the source's interface type
   * implements. (A concrete type implementing an interface never arises here,
   * because the copier only assigns between fields of equal kinds.)
   */
  predicate AssignableTo(from: TypeId, to: TypeId) {
    DirectlyAssignable(from, to) || Implements(from, to)
  }

  /**
   * A `chan T` value may be stored in a `<-chan T` or `chan<- T` field, but a
   * directional channel is never stored in a `chan T` field; two named types
   * are assignable only when they are the same type.
   */
  lemma ChannelDirections(elem: string, name: string, other: TypeId)
    requires name != "" && other.name != "" && !other.underlying.InterfaceOf?
    ensures AssignableTo(TypeId("", ChanOf(BothDir, elem)), TypeId("", ChanOf(RecvDir, elem)))
    ensures AssignableTo(TypeId("", ChanOf(BothDir, elem)), TypeId(name, ChanOf(SendDir, elem)))
    ensures !AssignableTo(TypeId("", ChanOf(RecvDir, elem)), TypeId("", ChanOf(BothDir, elem)))
    ensures AssignableTo(other, TypeId(name, other.underlying)) <==> other == TypeId(name, other.underlying)
  {
  }
}
