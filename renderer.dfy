/** The two renderings of a type descriptor as a Python `ctypes` type
    expression: the exact one used for native signatures and structure
    layouts, and the swizzled one used in the annotations of the wrappers
    callers see. */
module TypeRenderer {
  import opened TypeModel
  import opened Text

  /** The library prefix enumeration names lose: "BN" is dropped when the
      name is longer than the prefix alone. */
  function StripLibraryPrefix(name: string): (r: string)
    ensures StartsWith(name, "BN") && |name| > 2 ==> "BN" + r == name
    ensures !(StartsWith(name, "BN") && |name| > 2) ==> r == name
    ensures |r| > 0 <==> |name| > 0
  {
    if |name| > 2 && StartsWith(name, "BN") then name[2..] else name
  }

  /** The Python name of an enumeration type: the name without its library
      prefix, followed by "Enum". */
  function EnumTypeName(name: string): (r: string)
    ensures StartsWith(name, "BN") && |name| > 2 ==> "BN" + r == name + "Enum"
    ensures !(StartsWith(name, "BN") && |name| > 2) ==> r == name + "Enum"
    ensures |r| > |"Enum"| <==> |name| > 0
  {
    StripLibraryPrefix(name) + "Enum"
  }

  function IntegerCType(width: nat, signed: bool): string {
    match width
    case 1 => if signed then "ctypes.c_byte" else "ctypes.c_ubyte"
    case 2 => if signed then "ctypes.c_short" else "ctypes.c_ushort"
    case 4 => if signed then "ctypes.c_int" else "ctypes.c_uint"
    case _ => if signed then "ctypes.c_longlong" else "ctypes.c_ulonglong"
  }

  /** The rendering of a named type reference, shared by both modes. */
  function NamedReference(ref: QName, isEnum: bool): string {
    if isEnum then EnumTypeName(NameString(ref)) else NameString(ref)
  }

  /** The exact rendering. `isReturnType` marks a position where a C string
      must stay a raw byte pointer; `isCallback` turns every pointer into an
      opaque one. Neither flag reaches nested types. */
  function RenderType(t: Type, isReturnType: bool, isCallback: bool): string
    decreases t, 1
  {
    match t.cls
    case BoolClass => "ctypes.c_bool"
    case IntegerClass => IntegerCType(t.width, t.signed)
    case FloatClass => if t.width == 4 then "ctypes.c_float" else "ctypes.c_double"
    case NamedTypeReferenceClass(ref, isEnum) => NamedReference(ref, isEnum)
    case PointerClass(child) =>
      if isCallback || child.cls.VoidClass? then "ctypes.c_void_p"
      else if IsCharType(child) then
        (if isReturnType then "ctypes.POINTER(ctypes.c_byte)" else "ctypes.c_char_p")
      else PointerToNonChar(child)
    case ArrayClass(element, count) => RenderType(element, false, false) + " * " + Int64String(count)
    case _ => "None"
  }

  /** Pointer rendering once the void and char cases are excluded: a
      callback type for a function, a generic pointer otherwise. Both modes
      share it. */
  function PointerToNonChar(child: Type): string
    decreases child, 2
  {
    if child.cls.FunctionClass? then
      "ctypes.CFUNCTYPE(" + RenderType(child.cls.ret, true, true) + ParamTypeList(child.cls.params) + ")"
    else "ctypes.POINTER(" + RenderType(child, false, false) + ")"
  }

  /** ", T" for every parameter type, in order. */
  function ParamTypeList(ps: seq<Param>): string
    decreases ps, 0
  {
    if ps == [] then "" else ", " + RenderType(ps[0].ty, false, false) + ParamTypeList(ps[1..])
  }

  /** The swizzled rendering: Python scalars for scalars, and optional
      handles and strings for void and char pointers. */
  function RenderSwizzledType(t: Type): string {
    match t.cls
    case BoolClass => "bool"
    case IntegerClass => "int"
    case FloatClass => "float"
    case NamedTypeReferenceClass(ref, isEnum) => NamedReference(ref, isEnum)
    case PointerClass(child) =>
      if child.cls.VoidClass? then "Optional[ctypes.c_void_p]"
      else if IsCharType(child) then "Optional[str]"
      else PointerToNonChar(child)
    case ArrayClass(element, count) => RenderType(element, false, false) + " * " + Int64String(count)
    case _ => "None"
  }
}

/** Properties of the two renderings: the scalar and pointer tables, how the
    flags act, where the two modes agree, and that every rendering is a
    well-nested expression. */
module RendererProperties {
  import opened TypeModel
  import opened Text
  import opened TypeRenderer

  /** Integers map by width to four C sizes, and signedness alone decides
      the `u` prefix. */
  lemma IntegerRendering(t: Type)
    requires t.cls.IntegerClass?
    ensures var base := match t.width
                        case 1 => "byte" case 2 => "short" case 4 => "int" case _ => "longlong";
            RenderType(t, false, false) == (if t.signed then "ctypes.c_" else "ctypes.c_u") + base
  {
  }

  lemma ScalarRendering(t: Type, isReturnType: bool, isCallback: bool)
    ensures t.cls.BoolClass? ==> RenderType(t, isReturnType, isCallback) == "ctypes.c_bool"
    ensures t.cls.FloatClass? ==>
      RenderType(t, isReturnType, isCallback) == (if t.width == 4 then "ctypes.c_float" else "ctypes.c_double")
    ensures t.cls.IntegerClass? && t.width !in {1, 2, 4} ==>
      RenderType(t, isReturnType, isCallback) == (if t.signed then "ctypes.c_longlong" else "ctypes.c_ulonglong")
  {
  }

  /** The fixed priority of the pointer cases in the exact rendering, for
      a pointer of any width and signedness. */
  lemma PointerPriority(t: Type, isReturnType: bool, isCallback: bool)
    requires t.cls.PointerClass?
    ensures var r, child := RenderType(t, isReturnType, isCallback), t.cls.child;
      && (isCallback || child.cls.VoidClass? ==> r == "ctypes.c_void_p")
      && (!isCallback && !child.cls.VoidClass? && IsCharType(child) ==>
            r == if isReturnType then "ctypes.POINTER(ctypes.c_byte)" else "ctypes.c_char_p")
      && (!isCallback && !child.cls.VoidClass? && !IsCharType(child) && child.cls.FunctionClass? ==>
            r == "ctypes.CFUNCTYPE(" + RenderType(child.cls.ret, true, true) + ParamTypeList(child.cls.params) + ")")
      && (!isCallback && !child.cls.VoidClass? && !IsCharType(child) && !child.cls.FunctionClass? ==>
            r == "ctypes.POINTER(" + RenderType(child, false, false) + ")")
  {
  }

  /** The return slot of a callback type never carries a typed pointer:
      whatever pointer the callback returns is rendered opaque. */
  lemma CallbackReturnIsOpaque(ret: Type, isReturnType: bool)
    requires ret.cls.PointerClass?
    ensures RenderType(ret, isReturnType, true) == "ctypes.c_void_p"
  {
  }

  /** Both flags act only on a pointer at the top: for every other class
      the rendering is the default one. */
  lemma FlagsOnlyReachTopPointer(t: Type, isReturnType: bool, isCallback: bool)
    ensures !t.cls.PointerClass? ==> RenderType(t, isReturnType, isCallback) == RenderType(t, false, false)
    ensures !IsCharPointer(t) ==> RenderType(t, isReturnType, isCallback) == RenderType(t, false, isCallback)
  {
  }

  /** The enumeration rule is the same in both modes and for every width
      and signedness: the stripped name followed by "Enum". */
  lemma EnumReferenceRendering(t: Type, isReturnType: bool, isCallback: bool)
    requires t.cls.NamedTypeReferenceClass? && t.cls.isEnum
    ensures var ref := t.cls.ref;
      && RenderType(t, isReturnType, isCallback) == RenderSwizzledType(t) == StripLibraryPrefix(NameString(ref)) + "Enum"
      && (|ref| == 1 && |ref[0]| > 2 && StartsWith(ref[0], "BN") ==> "BN" + RenderSwizzledType(t) == ref[0] + "Enum")
  {
  }

  /** The classes on which the swizzled rendering departs from the exact
      one: scalars, and void and char pointers. */
  predicate SwizzleChanges(t: Type) {
    || t.cls.BoolClass? || t.cls.IntegerClass? || t.cls.FloatClass?
    || (t.cls.PointerClass? && (t.cls.child.cls.VoidClass? || IsCharType(t.cls.child)))
  }

  /** The swizzled rendering differs from the default exact rendering
      exactly on the classes `SwizzleChanges` names. */
  lemma SwizzledAgreesWithExact(t: Type)
    ensures RenderSwizzledType(t) == RenderType(t, false, false) <==> !SwizzleChanges(t)
  {
    var s, e := RenderSwizzledType(t), RenderType(t, false, false);
    if t.cls.BoolClass? || t.cls.FloatClass? {
      assert |s| < |e|;
    } else if t.cls.IntegerClass? {
      assert s[0] != e[0];
    } else if t.cls.PointerClass? && t.cls.child.cls.VoidClass? {
      assert s[0] != e[0];
    } else if t.cls.PointerClass? && IsCharType(t.cls.child) {
      assert s[0] != e[0];
    }
  }

  /** What the swizzled rendering gives in the cases where it departs. */
  lemma SwizzledScalarsAndHandles(t: Type)
    ensures t.cls.BoolClass? ==> RenderSwizzledType(t) == "bool"
    ensures t.cls.IntegerClass? ==> RenderSwizzledType(t) == "int"
    ensures t.cls.FloatClass? ==> RenderSwizzledType(t) == "float"
    ensures t.cls.PointerClass? && t.cls.child.cls.VoidClass? ==> RenderSwizzledType(t) == "Optional[ctypes.c_void_p]"
    ensures t.cls.PointerClass? && !t.cls.child.cls.VoidClass? && IsCharType(t.cls.child) ==>
      RenderSwizzledType(t) == "Optional[str]"
    ensures !(t.cls.BoolClass? || t.cls.IntegerClass? || t.cls.FloatClass? || t.cls.PointerClass?
              || t.cls.ArrayClass? || t.cls.NamedTypeReferenceClass?) ==>
      RenderSwizzledType(t) == RenderType(t, false, false) == "None"
  {
  }

  // ---- Well-nested parentheses ----

  predicate ParenFree(s: string) {
    '(' !in s && ')' !in s
  }

  /** Opening minus closing parentheses. */
  function Depth(s: string): int {
    if s == [] then 0
    else Depth(s[..|s| - 1]) + (if s[|s| - 1] == '(' then 1 else if s[|s| - 1] == ')' then -1 else 0)
  }

  predicate Balanced(s: string) {
    Depth(s) == 0 && forall k :: 0 <= k <= |s| ==> Depth(s[..k]) >= 0
  }

  /** Every name a rendering can print is free of parentheses. */
  predicate NamesParenFree(t: Type)
    decreases t, 1
  {
    match t.cls
    case NamedTypeReferenceClass(ref, _) => forall i :: 0 <= i < |ref| ==> ParenFree(ref[i])
    case PointerClass(child) => NamesParenFree(child)
    case ArrayClass(element, _) => NamesParenFree(element)
    case FunctionClass(ret, params, _) => NamesParenFree(ret) && ParamNamesParenFree(params)
    case _ => true
  }

  predicate ParamNamesParenFree(ps: seq<Param>)
    decreases ps, 0
  {
    forall i :: 0 <= i < |ps| ==> NamesParenFree(ps[i].ty)
  }

  lemma {:induction false} DepthAppend(a: string, b: string)
    ensures Depth(a + b) == Depth(a) + Depth(b)
    decreases |b|
  {
    if b != [] {
      assert (a + b)[..|a + b| - 1] == a + b[..|b| - 1];
      DepthAppend(a, b[..|b| - 1]);
    } else {
      assert a + b == a;
    }
  }

  lemma {:induction false} ParenFreeDepth(s: string)
    requires ParenFree(s)
    ensures Depth(s) == 0
    decreases |s|
  {
    if s != [] { ParenFreeDepth(s[..|s| - 1]); }
  }

  lemma ParenFreeBalanced(s: string)
    requires ParenFree(s)
    ensures Balanced(s)
  {
    ParenFreeDepth(s);
    forall k | 0 <= k <= |s| ensures Depth(s[..k]) >= 0 {
      ParenFreeDepth(s[..k]);
    }
  }

  lemma BalancedConcat(a: string, b: string)
    requires Balanced(a) && Balanced(b)
    ensures Balanced(a + b)
  {
    DepthAppend(a, b);
    forall k | 0 <= k <= |a + b| ensures Depth((a + b)[..k]) >= 0 {
      if k <= |a| {
        assert (a + b)[..k] == a[..k];
      } else {
        assert (a + b)[..k] == a + b[..k - |a|];
        DepthAppend(a, b[..k - |a|]);
      }
    }
  }

  /** `pre(s)` is well nested when `pre` has no parentheses and `s` is. */
  lemma BalancedWrap(pre: string, s: string)
    requires ParenFree(pre) && Balanced(s)
    ensures Balanced(pre + "(" + s + ")")
  {
    var u := "(" + s + ")";
    DepthAppend("(", s);
    DepthAppend("(" + s, ")");
    forall k | 0 <= k <= |u| ensures Depth(u[..k]) >= 0 {
      if k == 0 {
      } else if k <= |s| + 1 {
        assert u[..k] == "(" + s[..k - 1];
        DepthAppend("(", s[..k - 1]);
      } else {
        assert u[..k] == u;
      }
    }
    ParenFreeBalanced(pre);
    BalancedConcat(pre, u);
    assert pre + "(" + s + ")" == pre + u;
  }

  lemma {:induction false} JoinParenFree(sep: string, parts: seq<string>)
    requires ParenFree(sep)
    requires forall i :: 0 <= i < |parts| ==> ParenFree(parts[i])
    ensures ParenFree(Join(sep, parts))
  {
    if |parts| > 1 { JoinParenFree(sep, parts[..|parts| - 1]); }
  }

  lemma NameStringParenFree(q: QName)
    requires forall i :: 0 <= i < |q| ==> ParenFree(q[i])
    ensures ParenFree(NameString(q))
  {
    JoinParenFree("::", q);
  }

  lemma ScalarParenFree(t: Type)
    requires t.cls.BoolClass? || t.cls.IntegerClass? || t.cls.FloatClass?
    ensures ParenFree(RenderType(t, false, false))
  {
  }

  lemma LeafRenderingBalanced(t: Type, isReturnType: bool, isCallback: bool)
    requires !t.cls.PointerClass? && !t.cls.ArrayClass? && NamesParenFree(t)
    ensures Balanced(RenderType(t, isReturnType, isCallback))
  {
    if t.cls.NamedTypeReferenceClass? {
      NameStringParenFree(t.cls.ref);
    }
    ParenFreeBalanced(RenderType(t, isReturnType, isCallback));
  }

  /** Every exact rendering is a well-nested expression: each parenthesis
      it opens is closed, and none is closed before it is opened. */
  lemma {:induction false} RenderTypeBalanced(t: Type, isReturnType: bool, isCallback: bool)
    requires NamesParenFree(t)
    ensures Balanced(RenderType(t, isReturnType, isCallback))
    decreases t, 1
  {
    if t.cls.PointerClass? {
      PointerRenderingBalanced(t, isReturnType, isCallback);
    } else if t.cls.ArrayClass? {
      ArrayRenderingBalanced(t, isReturnType, isCallback);
    } else {
      LeafRenderingBalanced(t, isReturnType, isCallback);
    }
  }

  lemma {:induction false} PointerRenderingBalanced(t: Type, isReturnType: bool, isCallback: bool)
    requires t.cls.PointerClass? && NamesParenFree(t)
    ensures Balanced(RenderType(t, isReturnType, isCallback))
    decreases t, 0
  {
    var child := t.cls.child;
    if isCallback || child.cls.VoidClass? || IsCharType(child) {
      FixedPointerTextsBalanced();
    } else {
      PointerToNonCharBalanced(child);
    }
  }

  /** The three fixed pointer renderings are well nested. */
  lemma FixedPointerTextsBalanced()
    ensures Balanced("ctypes.c_void_p") && Balanced("ctypes.c_char_p")
    ensures Balanced("ctypes.POINTER(ctypes.c_byte)")
  {
    ParenFreeBalanced("ctypes.c_void_p");
    ParenFreeBalanced("ctypes.c_char_p");
    ParenFreeBalanced("ctypes.c_byte");
    PointerTextBalanced("ctypes.c_byte");
    assert "ctypes.POINTER(" + "ctypes.c_byte" + ")" == "ctypes.POINTER(ctypes.c_byte)";
  }

  lemma {:induction false} ArrayRenderingBalanced(t: Type, isReturnType: bool, isCallback: bool)
    requires t.cls.ArrayClass? && NamesParenFree(t)
    ensures Balanced(RenderType(t, isReturnType, isCallback))
    decreases t, 0
  {
    var element, count := t.cls.element, t.cls.count;
    var e, n := RenderType(element, false, false), " * " + Int64String(count);
    RenderTypeBalanced(element, false, false);
    Int64StringRoundTrip(count);
    ParenFreeBalanced(n);
    BalancedConcat(e, n);
    assert RenderType(t, isReturnType, isCallback) == e + n;
  }

  lemma {:induction false} PointerToNonCharBalanced(child: Type)
    requires NamesParenFree(child)
    ensures Balanced(PointerToNonChar(child))
    decreases child, 2
  {
    if child.cls.FunctionClass? {
      RenderTypeBalanced(child.cls.ret, true, true);
      ParamTypeListBalanced(child.cls.params);
      CallbackTextBalanced(RenderType(child.cls.ret, true, true), ParamTypeList(child.cls.params));
    } else {
      RenderTypeBalanced(child, false, false);
      PointerTextBalanced(RenderType(child, false, false));
    }
  }

  /** The `CFUNCTYPE` text around a balanced result and parameter list. */
  lemma CallbackTextBalanced(ret: string, ps: string)
    requires Balanced(ret) && Balanced(ps)
    ensures Balanced("ctypes.CFUNCTYPE(" + ret + ps + ")")
  {
    BalancedConcat(ret, ps);
    BalancedWrap("ctypes.CFUNCTYPE", ret + ps);
    assert "ctypes.CFUNCTYPE(" + ret + ps + ")" == "ctypes.CFUNCTYPE" + "(" + (ret + ps) + ")";
  }

  /** The `ctypes.POINTER(...)` text around a balanced target. */
  lemma PointerTextBalanced(inner: string)
    requires Balanced(inner)
    ensures Balanced("ctypes.POINTER(" + inner + ")")
  {
    BalancedWrap("ctypes.POINTER", inner);
    assert "ctypes.POINTER(" + inner + ")" == "ctypes.POINTER" + "(" + inner + ")";
  }

  lemma {:induction false} ParamTypeListBalanced(ps: seq<Param>)
    requires ParamNamesParenFree(ps)
    ensures Balanced(ParamTypeList(ps))
    decreases ps, 0
  {
    if ps != [] {
      ParenFreeBalanced(", ");
      RenderTypeBalanced(ps[0].ty, false, false);
      ParamTypeListBalanced(ps[1..]);
      BalancedConcat(", ", RenderType(ps[0].ty, false, false));
      BalancedConcat(", " + RenderType(ps[0].ty, false, false), ParamTypeList(ps[1..]));
    } else {
      ParenFreeBalanced("");
    }
  }

  /** The swizzled rendering is well nested too. */
  lemma RenderSwizzledTypeBalanced(t: Type)
    requires NamesParenFree(t)
    ensures Balanced(RenderSwizzledType(t))
  {
    if SwizzleChanges(t) {
      if t.cls.PointerClass? && !t.cls.child.cls.VoidClass? && IsCharType(t.cls.child) {
        assert RenderSwizzledType(t) == "Optional[str]";
      }
      ParenFreeBalanced(RenderSwizzledType(t));
    } else {
      SwizzledAgreesWithExact(t);
      RenderTypeBalanced(t, false, false);
    }
  }
}
