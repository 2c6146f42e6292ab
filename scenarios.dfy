/**
 * The package's test scenarios: a PersonDto copied into a Person, both with
 * Name, Age and a nested Address{City, Area}.
 */
module Scenarios {
  import opened Reflect
  import opened Fields
  import opened Copy

  const StringType := TypeId("string", Other("string"))
  const IntType := TypeId("int", Other("int"))

  /** The members of a Person's or a PersonDto's Address. */
  function AddressMembers(): seq<FieldDecl> {
    [FieldDecl("City", String, StringType, true, false, []), FieldDecl("Area", String, StringType, true, false, [])]
  }

  /** A struct with Name, Age and an Address of the given struct type. */
  function PersonShape(addressType: TypeId): seq<FieldDecl> {
    [ FieldDecl("Name", String, StringType, true, false, []),
      FieldDecl("Age", Int, IntType, true, false, []),
      FieldDecl("Address", Struct, addressType, true, false, AddressMembers()) ]
  }

  /** type Person struct { Name string; Age int; Address struct{ City, Area string } } */
  function PersonDecls(): seq<FieldDecl> {
    PersonShape(TypeId("", Other("struct{City string; Area string}")))
  }

  /** PersonDto: the same fields with JSON tags, so its Address is a different struct type. */
  function PersonDtoDecls(): seq<FieldDecl> {
    PersonShape(TypeId("", Other("struct{City string `json:\"city\"`; Area string `json:\"area\"`}")))
  }

  /** Both structs flatten to Name, Age, City, Area: the nested struct adds no entry and no prefix. */
  function PersonLeaves(): seq<FieldInfo> {
    [ FieldInfo(String, "Name", Handle(0, StringType, false)),
      FieldInfo(Int, "Age", Handle(1, IntType, false)),
      FieldInfo(String, "City", Handle(2, StringType, false)),
      FieldInfo(String, "Area", Handle(3, StringType, false)) ]
  }

  lemma AddressFlattened()
    ensures Walkable(AddressMembers())
    ensures Flatten(AddressMembers(), 2, false) == PersonLeaves()[2..]
  {
    var m := AddressMembers();
    assert m[..1] == [m[0]] && [m[0]][..0] == [];
    assert Flatten([m[0]], 2, false) == [PersonLeaves()[2]];
  }

  lemma PersonShapeFlattened(addressType: TypeId)
    ensures Walkable(PersonShape(addressType))
    ensures Flatten(PersonShape(addressType), 0, false) == PersonLeaves()
  {
    var p, leaves := PersonShape(addressType), PersonLeaves();
    AddressFlattened();
    assert p[..2] == [p[0], p[1]] && [p[0], p[1]][..1] == [p[0]] && [p[0]][..0] == [];
    assert Flatten([p[0]], 0, false) == [leaves[0]];
    assert Flatten(p[..2], 0, false) == leaves[..2];
    assert leaves == leaves[..2] + leaves[2..];
  }

  lemma PersonFlattened()
    ensures Walkable(PersonDecls()) && Walkable(PersonDtoDecls())
    ensures Flatten(PersonDecls(), 0, false) == PersonLeaves()
    ensures Flatten(PersonDtoDecls(), 0, false) == PersonLeaves()
  {
    PersonShapeFlattened(TypeId("", Other("struct{City string; Area string}")));
    PersonShapeFlattened(TypeId("", Other("struct{City string `json:\"city\"`; Area string `json:\"area\"`}")));
  }

  /**
   * In the Person lists every leaf has a name of its own, so leaf k of the
   * source is the only candidate for leaf k of the target.
   */
  lemma PersonLeavesPair(i: nat, j: nat)
    requires i < 4 && j < 4
    ensures Matches(PersonLeaves()[i], PersonLeaves()[j]) <==> i == j
    ensures PersonLeaves()[j].val.slot == j
  {
    var names := ["Name", "Age", "City", "Area"];
    assert forall k :: 0 <= k < 4 ==> PersonLeaves()[k].name == names[k];
    assert names[0][0] == 'N' && names[1][1] == 'g' && names[2][0] == 'C' && names[3][1] == 'r';
    assert |names[0]| == 4 && |names[1]| == 3;
  }

  /** A Person slot is written by its own Dto leaf when the policy lets that leaf through. */
  lemma PersonSlotCopied(sv: seq<Value>, tv: seq<Value>, p: Policy, k: nat)
    requires |sv| == 4 && |tv| == 4 && k < 4
    requires PersonLeaves()[k].name !in p.ignoreField && Writes(p.ignoreDefaultVal, sv[k])
    ensures SlotsBelow(PersonLeaves(), 4)
    ensures CopyAll(PersonLeaves(), PersonLeaves(), sv, tv, p)[k] == sv[k]
  {
    var leaves := PersonLeaves();
    forall i', j' | k < i' < 4 && 0 <= j' < 4 && leaves[j'].val.slot == leaves[k].val.slot
      ensures !Effective(leaves[i'], leaves[j'], sv, p)
    {
      PersonLeavesPair(k, j');
      PersonLeavesPair(j', j');
      PersonLeavesPair(i', j');
    }
    PersonLeavesPair(k, k);
    LastWriteWins(leaves, leaves, sv, tv, p, k, k);
  }

  function PersonVals(name: string, age: int, city: string, area: string): seq<Value> {
    [StringV(name), IntV(age), StringV(city), StringV(area)]
  }

  /** CopyProperties(&dto, new(Person)) fills every field of the empty Person. */
  lemma CopyIntoEmptyPerson()
    ensures CopyAll(PersonLeaves(), PersonLeaves(), PersonVals("feiwo", 12, "changsha", "yuelu"),
                    PersonVals("", 0, "", ""), Policy(true, []))
         == PersonVals("feiwo", 12, "changsha", "yuelu")
  {
    var sv := PersonVals("feiwo", 12, "changsha", "yuelu");
    forall k | 0 <= k < 4
      ensures CopyAll(PersonLeaves(), PersonLeaves(), sv, PersonVals("", 0, "", ""), Policy(true, []))[k] == sv[k]
    {
      PersonSlotCopied(sv, PersonVals("", 0, "", ""), Policy(true, []), k);
    }
  }

  /**
   * CopyPropertiesIgnoreDefaultVal(&dto, p, false) with an empty dto City:
   * the zero City is copied over the Person's "shenz".
   */
  lemma ZeroCityCopied()
    ensures CopyAll(PersonLeaves(), PersonLeaves(), PersonVals("feiwo", 12, "", "yuelu"),
                    PersonVals("", 0, "shenz", ""), Policy(false, []))
         == PersonVals("feiwo", 12, "", "yuelu")
  {
    var sv := PersonVals("feiwo", 12, "", "yuelu");
    forall k | 0 <= k < 4
      ensures CopyAll(PersonLeaves(), PersonLeaves(), sv, PersonVals("", 0, "shenz", ""), Policy(false, []))[k] == sv[k]
    {
      PersonSlotCopied(sv, PersonVals("", 0, "shenz", ""), Policy(false, []), k);
    }
  }

  /** With zero values skipped, the same copy keeps "shenz". */
  lemma ZeroCityKept()
    ensures CopyAll(PersonLeaves(), PersonLeaves(), PersonVals("feiwo", 12, "", "yuelu"),
                    PersonVals("", 0, "shenz", ""), Policy(true, []))
         == PersonVals("feiwo", 12, "shenz", "yuelu")
  {
    var sv, tv, p := PersonVals("feiwo", 12, "", "yuelu"), PersonVals("", 0, "shenz", ""), Policy(true, []);
    var leaves := PersonLeaves();
    forall k | 0 <= k < 4
      ensures CopyAll(leaves, leaves, sv, tv, p)[k] == PersonVals("feiwo", 12, "shenz", "yuelu")[k]
    {
      if k == 2 {
        forall i, j | 0 <= i < 4 && 0 <= j < 4 && leaves[j].val.slot == 2 && Matches(leaves[i], leaves[j])
          ensures IsZero(sv[leaves[i].val.slot])
        {
          PersonLeavesPair(i, j);
        }
        ZeroSourceKept(leaves, leaves, sv, tv, p, 2);
      } else {
        PersonSlotCopied(sv, tv, p, k);
      }
    }
  }

  /** CopyPropertiesIgnoreField(&dto, p, "Name") keeps the Person's own Name. */
  lemma NameExcluded()
    ensures CopyAll(PersonLeaves(), PersonLeaves(), PersonVals("feiwo", 12, "changsha", "yuelu"),
                    PersonVals("xiaoqi", 0, "", ""), Policy(true, ["Name"]))
         == PersonVals("xiaoqi", 12, "changsha", "yuelu")
  {
    var sv, tv, p := PersonVals("feiwo", 12, "changsha", "yuelu"), PersonVals("xiaoqi", 0, "", ""), Policy(true, ["Name"]);
    var leaves := PersonLeaves();
    forall k | 0 <= k < 4
      ensures CopyAll(leaves, leaves, sv, tv, p)[k] == PersonVals("xiaoqi", 12, "changsha", "yuelu")[k]
    {
      if k == 0 {
        forall j | 0 <= j < 4 && leaves[j].val.slot == 0
          ensures leaves[j].name in p.ignoreField
        {
          PersonLeavesPair(j, j);
        }
        ExcludedKept(leaves, leaves, sv, tv, p, 0);
      } else {
        PersonLeavesPair(0, k);
        assert leaves[k].name != "Name";
        PersonSlotCopied(sv, tv, p, k);
      }
    }
  }

  /** In the Person lists every pair copyProp may write passes Value.Set's checks. */
  lemma PersonWritesSafe(sv: seq<Value>, p: Policy)
    requires |sv| == 4
    ensures SlotsBelow(PersonLeaves(), 4) && SafeWrites(PersonLeaves(), PersonLeaves(), sv, p)
  {
    forall i, j | 0 <= i < 4 && 0 <= j < 4 && Effective(PersonLeaves()[i], PersonLeaves()[j], sv, p)
      ensures CanSet(PersonLeaves()[i].val, PersonLeaves()[j].val)
    {
      PersonLeavesPair(i, j);
    }
  }

  /**
   * A struct whose only field is an unexported struct field `inner`, embedded
   * or not, holding an exported `ID` and an unexported `secret`.
   */
  function InnerDecls(embedded: bool): seq<FieldDecl> {
    [ FieldDecl("inner", Struct, TypeId("inner", Other("struct{ID int; secret int}")), false, embedded,
                [FieldDecl("ID", Int, IntType, true, false, []), FieldDecl("secret", Int, IntType, false, false, [])]) ]
  }

  /** The members of `inner` flatten to ID and secret; secret is read-only whatever `ro` is. */
  lemma InnerMembersFlattened(ro: bool)
    ensures Flatten(InnerDecls(true)[0].fields, 0, ro)
         == [FieldInfo(Int, "ID", Handle(0, IntType, ro)), FieldInfo(Int, "secret", Handle(1, IntType, true))]
  {
    var members := InnerDecls(true)[0].fields;
    assert members[..1] == [members[0]] && [members[0]][..0] == [];
    assert Flatten(members[..1], 0, ro) == [FieldInfo(Int, "ID", Handle(0, IntType, ro))];
  }

  /**
   * The exported member of an embedded unexported struct can be set; below a
   * non-embedded unexported field everything is read-only, and an unexported
   * member is read-only either way.
   */
  lemma EmbeddedMembersSettable()
    ensures Flatten(InnerDecls(true), 0, false)
         == [FieldInfo(Int, "ID", Handle(0, IntType, false)), FieldInfo(Int, "secret", Handle(1, IntType, true))]
    ensures Flatten(InnerDecls(false), 0, false)
         == [FieldInfo(Int, "ID", Handle(0, IntType, true)), FieldInfo(Int, "secret", Handle(1, IntType, true))]
  {
    assert InnerDecls(true)[0].fields == InnerDecls(false)[0].fields;
    assert InnerDecls(true)[..0] == [] && InnerDecls(false)[..0] == [];
    InnerMembersFlattened(false);
    InnerMembersFlattened(true);
  }

  /** struct{ C chan int } or struct{ C <-chan int }: one field C of kind Chan. */
  function ChanDecls(dir: ChanDir): seq<FieldDecl> {
    [FieldDecl("C", Chan, TypeId("", ChanOf(dir, "int")), true, false, [])]
  }

  /** The entry of field C in a struct{ C chan int } or a struct{ C <-chan int }. */
  function ChanLeaf(dir: ChanDir): FieldInfo {
    FieldInfo(Chan, "C", Handle(0, TypeId("", ChanOf(dir, "int")), false))
  }

  lemma ChanFlattened(dir: ChanDir)
    ensures Flatten(ChanDecls(dir), 0, false) == [ChanLeaf(dir)]
  {
    assert ChanDecls(dir)[..0] == [];
  }

  /** Copying between the two one-field lists writes the channel and passes Value.Set's checks. */
  lemma ChanLeafCopied(c: Value, prior: Value, p: Policy)
    requires c.RefV? && p.ignoreField == []
    ensures SafeWrites([ChanLeaf(BothDir)], [ChanLeaf(RecvDir)], [c], p)
    ensures CopyAll([ChanLeaf(BothDir)], [ChanLeaf(RecvDir)], [c], [prior], p) == [c]
  {
    var src, dst := [ChanLeaf(BothDir)], [ChanLeaf(RecvDir)];
    assert src[..0] == [] && dst[..0] == [];
    assert CanSet(src[0].val, dst[0].val);
    assert Step(src[0], dst[0], [c], [prior], p) == [c];
  }

  /**
   * A bidirectional channel field is copied into a receive-only channel field
   * of the same name: the pair passes Value.Set's checks and the value is
   * written, whether or not zero values are skipped.
   */
  lemma ChannelIntoReceiveOnly(c: Value, prior: Value, skipZero: bool)
    requires c.RefV?
    ensures var src, dst := Flatten(ChanDecls(BothDir), 0, false), Flatten(ChanDecls(RecvDir), 0, false);
            && SlotsBelow(src, 1) && SlotsBelow(dst, 1)
            && SafeWrites(src, dst, [c], Policy(skipZero, []))
            && CopyAll(src, dst, [c], [prior], Policy(skipZero, [])) == [c]
  {
    ChanFlattened(BothDir);
    ChanFlattened(RecvDir);
    ChanLeafCopied(c, prior, Policy(skipZero, []));
  }
}
