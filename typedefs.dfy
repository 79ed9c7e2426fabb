/** The type-definition section of the binding module and the separate
    enumeration module: a class stanza per structure, an integer alias and
    an `IntEnum` class per enumeration, and a direct alias per scalar or
    array type. */
module TypeSection {
  import opened TypeModel
  import opened Text
  import opened TypeRenderer

  /** One entry of the parser's type list. */
  datatype ParsedType = ParsedType(name: QName, ty: Type)

  /** What one entry contributes to the binding module and to the
      enumeration module. */
  datatype Output = Output(bindings: string, enums: string)

  /** The property pair that converts a text field between Python strings
      and the C string stored under a leading underscore. */
  function PropertyBlock(field: string): string {
    "\t@property\n\tdef " + field + "(self):\n\t\treturn pyNativeStr(self._" + field + ")\n"
      + "\t@" + field + ".setter\n\tdef " + field + "(self, value):\n\t\tself._" + field + " = cstr(value)\n"
  }

  function Properties(ms: seq<Member>): string {
    if ms == [] then ""
    else (if IsStringFieldType(ms[0].ty) then PropertyBlock(ms[0].name) else "") + Properties(ms[1..])
  }

  predicate HasStringField(ms: seq<Member>) {
    exists i :: 0 <= i < |ms| && IsStringFieldType(ms[i].ty)
  }

  function StructStanza(name: string, ms: seq<Member>): string {
    "class " + name + "(ctypes.Structure):\n"
      + Properties(ms)
      + (if HasStringField(ms) then "" else "\tpass\n")
      + "\n\n" + name + "Handle = ctypes.POINTER(" + name + ")\n\n\n"
  }

  function EnumMemberLine(m: EnumMember): string {
    "\t" + m.name + " = " + Int64String(m.value) + "\n"
  }

  function EnumMemberLines(ms: seq<EnumMember>): string {
    if ms == [] then "" else EnumMemberLine(ms[0]) + EnumMemberLines(ms[1..])
  }

  function EnumClass(name: string, ms: seq<EnumMember>): string {
    "\n\nclass " + StripLibraryPrefix(name) + "(enum.IntEnum):\n" + EnumMemberLines(ms)
  }

  predicate IsDirectAlias(t: Type) {
    t.cls.BoolClass? || t.cls.IntegerClass? || t.cls.FloatClass? || t.cls.ArrayClass?
  }

  /** What one entry writes; a qualified name, and a class with no
      definition of its own, write nothing. */
  function TypeDefinition(e: ParsedType): Output {
    if |e.name| != 1 then Output("", "")
    else
      var name := e.name[0];
      match e.ty.cls
      case StructureClass(ms) => Output(StructStanza(name, ms), "")
      case EnumerationClass(ms) =>
        Output(EnumTypeName(name) + " = ctypes.c_int\n", EnumClass(name, ms))
      case _ =>
        if IsDirectAlias(e.ty) then Output(name + " = " + RenderType(e.ty, false, false) + "\n", "")
        else Output("", "")
  }

  /** The entries' definitions, in the parser's order, on both outputs. */
  function TypeDefinitions(es: seq<ParsedType>): Output {
    if es == [] then Output("", "")
    else
      var first := TypeDefinition(es[0]);
      var rest := TypeDefinitions(es[1..]);
      Output(first.bindings + rest.bindings, first.enums + rest.enums)
  }

  /** The section as written to the binding module, with its heading. */
  function TypeDefinitionSection(es: seq<ParsedType>): string {
    "# Type definitions\n" + TypeDefinitions(es).bindings
  }

  // ---- Reading the enumeration module back ----

  /** Reads `NAME = VALUE`. */
  function ParseEnumLine(line: string): Option<(string, int)> {
    var k := IndexOf(line, ' ');
    if k + 3 <= |line| && line[k..k + 3] == " = " then
      match ParseInt(line[k + 3..])
      case None => None
      case Some(v) => Some((line[..k], v))
    else None
  }

  /** Reads a sequence of tab-indented, newline-terminated member lines. */
  function ParseEnumBody(s: string): Option<seq<(string, int)>>
    decreases |s|
  {
    if s == [] then Some([])
    else if s[0] != '\t' then None
    else
      var nl := IndexOf(s, '\n');
      if nl == |s| then None
      else
        match ParseEnumLine(s[1..nl])
        case None => None
        case Some(entry) =>
          match ParseEnumBody(s[nl + 1..])
          case None => None
          case Some(rest) => Some([entry] + rest)
  }

  /** The members as Python sees them: each name with its value read as a
      signed 64-bit integer. */
  function EnumEntries(ms: seq<EnumMember>): (r: seq<(string, int)>)
    ensures |r| == |ms|
    ensures forall i :: 0 <= i < |ms| ==> r[i] == (ms[i].name, AsInt64(ms[i].value))
  {
    seq(|ms|, i requires 0 <= i < |ms| => (ms[i].name, AsInt64(ms[i].value)))
  }

  /** A member name as C declares it: no blank and no line break. */
  predicate PlainName(s: string) {
    ' ' !in s && '\n' !in s
  }
}

/** Properties of the type-definition section. */
module TypeSectionProperties {
  import opened TypeModel
  import opened Text
  import opened TypeRenderer
  import opened TypeSection

  lemma Int64StringIsPlain(v: UInt64)
    ensures ' ' !in Int64String(v) && '\n' !in Int64String(v)
  {
    Int64StringRoundTrip(v);
  }

  lemma EnumLineRoundTrip(m: EnumMember)
    requires PlainName(m.name)
    ensures ParseEnumLine(m.name + " = " + Int64String(m.value)) == Some((m.name, AsInt64(m.value)))
  {
    var v := Int64String(m.value);
    var line := m.name + " = " + v;
    Int64StringIsPlain(m.value);
    Int64StringRoundTrip(m.value);
    assert line == m.name + [' '] + ("= " + v);
    IndexOfAfter(m.name, ' ', "= " + v);
    assert line[|m.name|..|m.name| + 3] == " = ";
    assert line[|m.name| + 3..] == v;
    assert line[..|m.name|] == m.name;
  }

  /** Reading a body that starts with one well-formed line. */
  lemma ParseBodyCons(line: string, rest: string, entry: (string, int))
    requires '\n' !in line && ParseEnumLine(line) == Some(entry)
    ensures ParseEnumBody("\t" + line + "\n" + rest) ==
      match ParseEnumBody(rest) case None => None case Some(tail) => Some([entry] + tail)
  {
    var s := "\t" + line + "\n" + rest;
    assert '\n' !in "\t" + line;
    assert s == ("\t" + line) + ['\n'] + rest;
    IndexOfAfter("\t" + line, '\n', rest);
    assert s[1..|"\t" + line|] == line;
    assert s[|"\t" + line| + 1..] == rest;
  }

  /** Reading a body that starts with the line written for `m`. */
  lemma MemberLineCons(m: EnumMember, rest: string)
    requires PlainName(m.name)
    ensures ParseEnumBody(EnumMemberLine(m) + rest) ==
      match ParseEnumBody(rest) case None => None case Some(tail) => Some([(m.name, AsInt64(m.value))] + tail)
  {
    var line := m.name + " = " + Int64String(m.value);
    Int64StringIsPlain(m.value);
    assert EnumMemberLine(m) == "\t" + line + "\n";
    EnumLineRoundTrip(m);
    ParseBodyCons(line, rest, (m.name, AsInt64(m.value)));
  }

  /** The enumeration module lists every member in declaration order with
      its value unchanged as a signed 64-bit integer: reading the member
      lines back gives exactly the members. */
  lemma {:induction false} EnumMembersRoundTrip(ms: seq<EnumMember>)
    requires forall i :: 0 <= i < |ms| ==> PlainName(ms[i].name)
    ensures ParseEnumBody(EnumMemberLines(ms)) == Some(EnumEntries(ms))
    decreases |ms|
  {
    if ms != [] {
      var head, rest := (ms[0].name, AsInt64(ms[0].value)), EnumMemberLines(ms[1..]);
      assert ParseEnumBody(rest) == Some(EnumEntries(ms[1..])) by {
        EnumMembersRoundTrip(ms[1..]);
      }
      assert ParseEnumBody(EnumMemberLine(ms[0]) + rest) == Some([head] + EnumEntries(ms[1..])) by {
        MemberLineCons(ms[0], rest);
      }
      assert EnumEntries(ms) == [head] + EnumEntries(ms[1..]);
    }
  }

  /** The alias written for an enumeration is the name every reference to
      it renders as, in both renderings, and its `IntEnum` class carries the
      same stripped name. */
  lemma EnumNamesAgree(name: string, ms: seq<EnumMember>, w: nat, s: bool, isReturnType: bool, isCallback: bool)
    ensures var ref := Type(NamedTypeReferenceClass([name], true), w, s);
      var out := TypeDefinition(ParsedType([name], Type(EnumerationClass(ms), w, s)));
      && out.bindings == RenderType(ref, isReturnType, isCallback) + " = ctypes.c_int\n"
      && out.bindings == RenderSwizzledType(ref) + " = ctypes.c_int\n"
      && out.enums == "\n\nclass " + StripLibraryPrefix(name) + "(enum.IntEnum):\n" + EnumMemberLines(ms)
  {
  }

  lemma {:induction false} PropertiesEmptyIffNoStringField(ms: seq<Member>)
    ensures Properties(ms) == "" <==> !HasStringField(ms)
    decreases |ms|
  {
    if ms != [] {
      PropertiesEmptyIffNoStringField(ms[1..]);
      if IsStringFieldType(ms[0].ty) {
        assert |PropertyBlock(ms[0].name)| > 0;
      } else {
        assert HasStringField(ms) <==> HasStringField(ms[1..]) by {
          if HasStringField(ms) {
            var i :| 0 <= i < |ms| && IsStringFieldType(ms[i].ty);
            assert ms[1..][i - 1] == ms[i];
          }
          if HasStringField(ms[1..]) {
            var i :| 0 <= i < |ms[1..]| && IsStringFieldType(ms[1..][i].ty);
            assert ms[i + 1] == ms[1..][i];
          }
        }
      }
    }
  }

  /** A structure's class is never left without a body: it has a property
      pair for each text field, and `pass` exactly when it has none. */
  lemma StructClassHasBody(name: string, ms: seq<Member>)
    ensures var body := Properties(ms) + (if HasStringField(ms) then "" else "\tpass\n");
      && StructStanza(name, ms) ==
           "class " + name + "(ctypes.Structure):\n" + body + "\n\n" + name + "Handle = ctypes.POINTER(" + name + ")\n\n\n"
      && body != ""
      && (body == "\tpass\n" <==> !HasStringField(ms))
  {
    PropertiesEmptyIffNoStringField(ms);
    if HasStringField(ms) {
      var body := Properties(ms);
      assert body != "";
      if body == "\tpass\n" {
        PassIsNotProperties(ms);
      }
    }
  }

  /** Property text always starts with a tab and '@', never with "\tpass". */
  lemma {:induction false} PassIsNotProperties(ms: seq<Member>)
    requires Properties(ms) != ""
    ensures |Properties(ms)| >= 2 && Properties(ms)[1] == '@'
    decreases |ms|
  {
    if IsStringFieldType(ms[0].ty) {
      assert Properties(ms) == PropertyBlock(ms[0].name) + Properties(ms[1..]);
      assert PropertyBlock(ms[0].name)[1] == '@';
    } else {
      PassIsNotProperties(ms[1..]);
    }
  }

  /** Scalars and arrays are aliased to their exact rendering; pointers,
      functions, aliases, `void` and unknown classes write nothing, and so
      does every qualified name. */
  lemma DefinitionKinds(e: ParsedType)
    ensures |e.name| != 1 ==> TypeDefinition(e) == Output("", "")
    ensures |e.name| == 1 && IsDirectAlias(e.ty) ==>
      TypeDefinition(e) == Output(e.name[0] + " = " + RenderType(e.ty, false, false) + "\n", "")
    ensures |e.name| == 1 && !IsDirectAlias(e.ty) && !e.ty.cls.StructureClass? && !e.ty.cls.EnumerationClass? ==>
      TypeDefinition(e) == Output("", "")
    ensures TypeDefinition(e).enums != "" ==> |e.name| == 1 && e.ty.cls.EnumerationClass?
  {
  }
}
