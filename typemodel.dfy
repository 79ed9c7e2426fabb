/** The parsed declaration set handed to the generator by the header parser:
    type descriptors with their class, width and signedness, structure and
    enumeration members, function parameters, and qualified names. */
module TypeModel {

  datatype Option<T> = None | Some(value: T)

  /** A qualified name: its identifier segments, outermost first. */
  type QName = seq<string>

  const TwoTo63: nat := 0x8000_0000_0000_0000
  const TwoTo64: nat := 0x1_0000_0000_0000_0000

  /** The unsigned 64-bit integers the parser stores for enumeration values
      and array element counts. */
  type UInt64 = x: nat | x < 0x1_0000_0000_0000_0000

  /** A type descriptor. Every descriptor has a class, a width in bytes and a
      signedness, whatever its class (the generator asks for width and
      signedness of descriptors it has not checked to be integers). */
  datatype Type = Type(cls: TypeClass, width: nat, signed: bool)

  datatype TypeClass =
    | VoidClass
    | BoolClass
    | IntegerClass
    | FloatClass
    | StructureClass(members: seq<Member>)
    | EnumerationClass(enumMembers: seq<EnumMember>)
    | PointerClass(child: Type)
    | ArrayClass(element: Type, count: UInt64)
    | FunctionClass(ret: Type, params: seq<Param>, variadic: bool)
    | NamedTypeReferenceClass(ref: QName, isEnum: bool)
      /** Varargs, value, wide-character and any other class the generator
          does not distinguish. */
    | OtherClass

  datatype Member = Member(name: string, ty: Type)
  datatype Param = Param(name: string, ty: Type)
  datatype EnumMember = EnumMember(name: string, value: UInt64)

  /** A 1-byte signed integer: the C `char` the generator treats as text. */
  predicate IsCharType(t: Type) {
    t.cls.IntegerClass? && t.width == 1 && t.signed
  }

  /** Width 1 and signed, whatever the class: the weaker test the generator
      applies to structure fields and function results. */
  predicate HasCharLayout(t: Type) {
    t.width == 1 && t.signed
  }

  /** A pointer to a C `char`. */
  predicate IsCharPointer(t: Type) {
    t.cls.PointerClass? && IsCharType(t.cls.child)
  }

  /** A pointer whose target is 1 byte wide and signed: the test the
      generator uses for text-valued structure fields. */
  predicate IsStringFieldType(t: Type) {
    t.cls.PointerClass? && HasCharLayout(t.cls.child)
  }

  /** The value a 64-bit pattern has when read back as a signed integer, as
      the `PRId64` conversion prints it. */
  function AsInt64(v: UInt64): (r: int)
    ensures -(TwoTo63 as int) <= r < TwoTo63
    ensures r % TwoTo64 == v
    ensures 0 <= r <==> v < TwoTo63
  {
    if v < TwoTo63 then v else v - TwoTo64
  }
}
