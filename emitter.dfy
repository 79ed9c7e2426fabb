/** The function section of the binding module: for every one-segment
    function, a native binding with its `restype` and `argtypes`, and a
    Python wrapper whose parameter names, argument conversions and result
    handling follow from the function's name and signature. */
module FunctionEmitter {
  import opened TypeModel
  import opened Text
  import opened TypeRenderer

  /** A parsed function declaration: its name and its function type. */
  datatype Function = Function(name: QName, ret: Type, params: seq<Param>, variadic: bool)

  /** The Python keywords a C parameter name may collide with, each with
      the name used instead, in the order of the source table. */
  const KeywordReplacements: seq<(string, string)> := [
    ("False", "False_"), ("True", "True_"), ("None", "None_"), ("and", "and_"), ("as", "as_"),
    ("assert", "assert_"), ("async", "async_"), ("await", "await_"), ("break", "break_"),
    ("class", "class_"), ("continue", "continue_"), ("def", "def_"), ("del", "del_"),
    ("elif", "elif_"), ("else", "else_"), ("except", "except_"), ("finally", "finally_"),
    ("for", "for_"), ("from", "from_"), ("global", "global_"), ("if", "if_"),
    ("import", "import_"), ("in", "in_"), ("is", "is_"), ("lambda", "lambda_"),
    ("nonlocal", "nonlocal_"), ("not", "not_"), ("or", "or_"), ("pass", "pass_"),
    ("raise", "raise_"), ("return", "return_"), ("try", "try_"), ("while", "while_"),
    ("with", "with_"), ("yield", "yield_")]

  /** The replacement `table` lists for `key`, if any. */
  function Lookup(table: seq<(string, string)>, key: string): (r: Option<string>)
    ensures r.Some? <==> exists i :: 0 <= i < |table| && table[i].0 == key
    ensures r.Some? ==> exists i :: 0 <= i < |table| && table[i] == (key, r.value)
  {
    if table == [] then None
    else if table[0].0 == key then Some(table[0].1)
    else Lookup(table[1..], key)
  }

  predicate IsKeyword(s: string) {
    Lookup(KeywordReplacements, s).Some?
  }

  /** Every replacement is its keyword followed by "_", no keyword ends in
      "_", and none starts with "ar" (so no `arg<n>` name is a keyword). */
  predicate RenamingTable(table: seq<(string, string)>) {
    && (forall i :: 0 <= i < |table| ==> table[i].1 == table[i].0 + "_")
    && (forall i :: 0 <= i < |table| ==> |table[i].0| > 0 && table[i].0[|table[i].0| - 1] != '_')
    && (forall i :: 0 <= i < |table| ==> |table[i].0| < 2 || table[i].0[0] != 'a' || table[i].0[1] != 'r')
  }

  lemma KeywordTableIsRenaming()
    ensures RenamingTable(KeywordReplacements)
  {
    ReplacementsAddUnderscore();
    KeywordsEndInLetters();
    KeywordsAvoidArg();
  }

  lemma ReplacementsAddUnderscore()
    ensures forall i :: 0 <= i < |KeywordReplacements| ==>
      KeywordReplacements[i].1 == KeywordReplacements[i].0 + "_"
  {
  }

  lemma KeywordsEndInLetters()
    ensures forall i :: 0 <= i < |KeywordReplacements| ==>
      |KeywordReplacements[i].0| > 0 && KeywordReplacements[i].0[|KeywordReplacements[i].0| - 1] != '_'
  {
  }

  lemma KeywordsAvoidArg()
    ensures forall i :: 0 <= i < |KeywordReplacements| ==>
      |KeywordReplacements[i].0| < 2 || KeywordReplacements[i].0[0] != 'a' || KeywordReplacements[i].0[1] != 'r'
  {
  }

  /** Through a renaming table a keyword becomes itself plus "_", and
      neither that nor a synthetic `arg<n>` name is a keyword. */
  lemma RenamingFacts(table: seq<(string, string)>, key: string, index: nat)
    requires RenamingTable(table)
    ensures Lookup(table, key).Some? ==> Lookup(table, key).value == key + "_"
    ensures Lookup(table, key).Some? ==> Lookup(table, key + "_").None?
    ensures Lookup(table, "arg" + NatString(index)).None?
  {
    var s := "arg" + NatString(index);
    assert s[0] == 'a' && s[1] == 'r';
  }

  /** The Python name of parameter `index`: its C name, renamed when it is a
      keyword, or `arg<index>` when the header gives none. */
  function ParamName(p: Param, index: nat): string {
    var n := match Lookup(KeywordReplacements, p.name) case Some(v) => v case None => p.name;
    if n == "" then "arg" + NatString(index) else n
  }

  /** A parameter name is never empty and never a Python keyword: a keyword
      gains a trailing "_", an unnamed parameter is called `arg<index>`, and
      every other name is kept. */
  lemma ParamNameIsSafe(p: Param, index: nat)
    ensures ParamName(p, index) != [] && !IsKeyword(ParamName(p, index))
    ensures IsKeyword(p.name) ==> ParamName(p, index) == p.name + "_"
    ensures p.name == "" ==> ParamName(p, index) == "arg" + NatString(index)
    ensures p.name != "" && !IsKeyword(p.name) ==> ParamName(p, index) == p.name
  {
    KeywordTableIsRenaming();
    RenamingFacts(KeywordReplacements, p.name, index);
  }

  // ---- Per-function conventions ----

  /** The decisions the emitter takes from a function's name and result
      type before writing anything. */
  datatype Conventions = Conventions(
    stringResult: bool,       // result is decoded to `str` and freed
    pointerResult: bool,      // result is a pointer; null becomes None
    swizzleArgs: bool,        // arguments are converted from Python values
    rustFFI: bool,            // strings are freed by the Rust allocator's routine
    callbackConvention: bool) // the native result type is rendered opaque

  predicate IsFreeStringFunction(name: string) {
    name == "BNFreeString" || name == "BNRustFreeString"
  }

  function ConventionsOf(name: string, ret: Type): Conventions {
    var isAlloc := name == "BNAllocString";
    Conventions(
      stringResult := IsStringFieldType(ret) && !isAlloc,
      pointerResult := ret.cls.PointerClass?,
      swizzleArgs := !IsFreeStringFunction(name),
      rustFFI := StartsWith(name, "BNRust"),
      callbackConvention := isAlloc)
  }

  /** The routine that releases a string result. */
  function FreeRoutine(c: Conventions): string {
    if c.rustFFI then "BNRustFreeString" else "BNFreeString"
  }

  /** The line releasing `result` through `routine`. */
  function FreeLine(routine: string): string {
    "\t" + routine + "(result)\n"
  }

  // ---- The call string ----

  /** One argument of the call: the parameter's name, wrapped in `cstr`
      for a C string when arguments are converted. */
  function CallArg(p: Param, index: nat, swizzle: bool): string {
    var n := ParamName(p, index);
    if swizzle && IsCharPointer(p.ty) then "cstr(" + n + ")" else n
  }

  function CallArgs(ps: seq<Param>, swizzle: bool): (r: seq<string>)
    ensures |r| == |ps|
    ensures forall i :: 0 <= i < |ps| ==> r[i] == CallArg(ps[i], i, swizzle)
  {
    seq(|ps|, i requires 0 <= i < |ps| => CallArg(ps[i], i, swizzle))
  }

  /** The call the wrapper makes: the native binding applied to the
      arguments, separated by ", " with no trailing separator. */
  function CallString(funcName: string, ps: seq<Param>, swizzle: bool): string {
    funcName + "(" + Join(", ", CallArgs(ps, swizzle)) + ")"
  }

  /** Builds the call as the emitter does: every argument followed by ", ",
      then the last separator cut off when there was an argument. */
  method BuildCall(funcName: string, ps: seq<Param>, swizzle: bool) returns (call: string)
    ensures call == CallString(funcName, ps, swizzle)
  {
    call := funcName + "(";
    ghost var args := CallArgs(ps, swizzle);
    var argN := 0;
    assert args[..0] == [];
    while argN < |ps|
      invariant 0 <= argN <= |ps|
      invariant call == Terminated(funcName + "(", ", ", args[..argN])
    {
      var arg := ArgumentText(ps[argN], argN, swizzle);
      TerminatedStep(funcName + "(", ", ", args, argN);
      call := call + arg + ", ";
      argN := argN + 1;
    }
    assert args[..argN] == args;
    if argN > 0 {
      TrimSeparator(funcName + "(", ", ", args);
      call := call[..|call| - 2];
    }
    call := call + ")";
  }

  /** One argument as the emitter writes it: the C name, replaced when it
      is a keyword, `arg` and the index when empty, then wrapped in `cstr`
      for a C string when arguments are converted. */
  method ArgumentText(p: Param, index: nat, swizzle: bool) returns (arg: string)
    ensures arg == CallArg(p, index, swizzle)
  {
    var argName := p.name;
    var replacement := Lookup(KeywordReplacements, argName);
    if replacement.Some? {
      argName := replacement.value;
    }
    if argName == "" {
      argName := "arg" + NatString(index);
    }
    if swizzle && IsCharPointer(p.ty) {
      arg := "cstr(" + argName + ")";
    } else {
      arg := argName;
    }
  }

  /** A name the header can declare: no comma in it. */
  predicate CommaFree(s: string) {
    ',' !in s
  }

  lemma NatStringCommaFree(n: nat)
    ensures CommaFree(NatString(n))
  {
  }

  lemma CallArgCommaFree(p: Param, index: nat, swizzle: bool)
    requires CommaFree(p.name)
    ensures CommaFree(CallArg(p, index, swizzle))
  {
    NatStringCommaFree(index);
    ParamNameIsSafe(p, index);
    var n := ParamName(p, index);
    if IsKeyword(p.name) {
      assert n == p.name + "_";
    } else if p.name == "" {
      assert n == ['a', 'r', 'g'] + NatString(index);
    }
  }

  /** The arguments can be read back from the call string: the text between
      the parentheses splits into exactly the arguments, one per
      parameter, in order. */
  lemma CallArgumentsRecoverable(funcName: string, ps: seq<Param>, swizzle: bool)
    requires |ps| > 0
    requires forall i :: 0 <= i < |ps| ==> CommaFree(ps[i].name)
    ensures var call := CallString(funcName, ps, swizzle);
      && StartsWith(call, funcName + "(") && call[|call| - 1] == ')'
      && SplitList(call[|funcName| + 1..|call| - 1]) == CallArgs(ps, swizzle)
  {
    var args := CallArgs(ps, swizzle);
    forall i | 0 <= i < |args| ensures ',' !in args[i] {
      CallArgCommaFree(ps[i], i, swizzle);
    }
    JoinSplitRoundTrip(args);
    var call := CallString(funcName, ps, swizzle);
    assert call[|funcName| + 1..|call| - 1] == Join(", ", args);
  }

  // ---- The text of one function ----

  /** One `argtypes` entry. The free-string functions take core-allocated
      strings, so their parameters are rendered as in a result position. */
  function ArgTypeLine(p: Param, freeString: bool): string {
    "\t\t" + RenderType(p.ty, freeString, false) + ",\n"
  }

  function ArgTypeLines(ps: seq<Param>, freeString: bool): string {
    if ps == [] then "" else ArgTypeLine(ps[0], freeString) + ArgTypeLines(ps[1..], freeString)
  }

  /** The annotation of one wrapper parameter. */
  function ParamAnnotation(p: Param, swizzle: bool): string {
    if swizzle then RenderSwizzledType(p.ty) else RenderType(p.ty, false, false)
  }

  /** Parameter `index` of the wrapper's signature. */
  function SignatureEntry(p: Param, index: nat, swizzle: bool): string {
    (if index > 0 then ", " else "") + "\n\t\t" + ParamName(p, index) + ": " + ParamAnnotation(p, swizzle)
  }

  function SignatureEntries(ps: seq<Param>, swizzle: bool): string {
    if ps == [] then ""
    else SignatureEntries(ps[..|ps| - 1], swizzle) + SignatureEntry(ps[|ps| - 1], |ps| - 1, swizzle)
  }

  /** The signature and the call name parameter `i` alike: the signature
      lists it after the earlier parameters as `name: annotation`, and the
      call passes that same name, wrapped in `cstr` only when the wrapper
      declares it as an optional `str`. */
  lemma SignatureAndCallAgree(ps: seq<Param>, swizzle: bool, i: nat)
    requires i < |ps|
    ensures var name, arg := ParamName(ps[i], i), CallArgs(ps, swizzle)[i];
      var pre := (if i > 0 then ", " else "") + "\n\t\t";
      var entry := SignatureEntry(ps[i], i, swizzle);
      && SignatureEntries(ps[..i + 1], swizzle) == SignatureEntries(ps[..i], swizzle) + entry
      && entry[|pre|..|pre| + |name| + 2] == name + ": "
      && (arg == name || arg == "cstr(" + name + ")")
      && (arg != name ==> ParamAnnotation(ps[i], swizzle) == "Optional[str]")
  {
    SignatureEntriesSnoc(ps, swizzle, i);
    SignatureEntryNames(ps[i], i, swizzle);
    CallArgWrapping(ps[i], i, swizzle);
  }

  lemma SignatureEntriesSnoc(ps: seq<Param>, swizzle: bool, i: nat)
    requires i < |ps|
    ensures SignatureEntries(ps[..i + 1], swizzle) == SignatureEntries(ps[..i], swizzle) + SignatureEntry(ps[i], i, swizzle)
  {
    assert ps[..i + 1][..i] == ps[..i] && ps[..i + 1][i] == ps[i];
  }

  lemma SignatureEntryNames(p: Param, i: nat, swizzle: bool)
    ensures var name, pre := ParamName(p, i), (if i > 0 then ", " else "") + "\n\t\t";
      SignatureEntry(p, i, swizzle)[|pre|..|pre| + |name| + 2] == name + ": "
  {
    var name, pre := ParamName(p, i), (if i > 0 then ", " else "") + "\n\t\t";
    assert SignatureEntry(p, i, swizzle) == pre + (name + ": ") + ParamAnnotation(p, swizzle);
  }

  lemma CallArgWrapping(p: Param, i: nat, swizzle: bool)
    ensures var name, arg := ParamName(p, i), CallArg(p, i, swizzle);
      && (arg == name || arg == "cstr(" + name + ")")
      && (arg != name ==> ParamAnnotation(p, swizzle) == "Optional[str]")
  {
    if swizzle && IsCharPointer(p.ty) {
      assert ParamAnnotation(p, swizzle) == RenderSwizzledType(p.ty) == "Optional[str]";
    } else {
      assert CallArg(p, i, swizzle) == ParamName(p, i);
    }
  }

  function ReturnAnnotation(c: Conventions, ret: Type): string {
    if c.stringResult || c.pointerResult then "Optional[" + RenderSwizzledType(ret) + "]"
    else RenderSwizzledType(ret)
  }

  /** The body of the wrapper, line by line. */
  function WrapperBody(c: Conventions, call: string): seq<string> {
    if c.stringResult then
      [ "\tresult = " + call + "\n",
        "\tstring = str(pyNativeStr(ctypes.cast(result, ctypes.c_char_p).value))\n",
        FreeLine(FreeRoutine(c)),
        "\treturn string\n" ]
    else if c.pointerResult then
      [ "\tresult = " + call + "\n",
        "\tif not result:\n",
        "\t\treturn None\n",
        "\treturn result\n" ]
    else
      [ "\treturn " + call + "\n" ]
  }

  function Concat(lines: seq<string>): string {
    if lines == [] then "" else lines[0] + Concat(lines[1..])
  }

  /** The wrapper's parameter list: empty for a variadic function. */
  function WrapperSignature(f: Function, c: Conventions): string {
    if f.variadic then "" else SignatureEntries(f.params, c.swizzleArgs)
  }

  /** The wrapper: its signature, with no parameters for a variadic
      function, and its body. */
  function Wrapper(f: Function, name: string, c: Conventions, funcName: string): string {
    "\n\n\n# noinspection PyPep8Naming\n"
      + "def " + name + "(" + WrapperSignature(f, c)
      + "\n\t\t) -> " + ReturnAnnotation(c, f.ret) + ":\n"
      + Concat(WrapperBody(c, CallString(funcName, f.params, c.swizzleArgs)))
      + "\n\n"
  }

  /** The pass-through the variadic logging functions get in place of a
      wrapper; `BNLog` itself keeps its leading level argument. */
  function LogPassThrough(name: string, funcName: string): string {
    if funcName != "_BNLog" then
      "def " + name + "(*args):\n\treturn " + funcName + "(*[cstr(arg) for arg in args])\n\n"
    else
      "def " + name + "(level, *args):\n\treturn " + funcName + "(level, *[cstr(arg) for arg in args])\n\n"
  }

  /** The native binding: the entry point taken from the core library and
      its result type. */
  function Binding(name: string, funcName: string, ret: Type, c: Conventions): string {
    "# -------------------------------------------------------\n"
      + "# " + funcName + "\n\n"
      + funcName + " = core." + name + "\n"
      + funcName + ".restype = " + RenderType(ret, true, c.callbackConvention) + "\n"
  }

  /** Everything written for one function; nothing for a qualified name. */
  function FunctionBlock(f: Function): string {
    if |f.name| != 1 then ""
    else
      var name := f.name[0];
      var c := ConventionsOf(name, f.ret);
      var funcName := "_" + name;
      if !f.variadic then
        Binding(name, funcName, f.ret, c)
          + funcName + ".argtypes = [\n" + ArgTypeLines(f.params, !c.swizzleArgs) + "\t]"
          + Wrapper(f, name, c, funcName)
      else if StartsWith(funcName, "_BNLog") then
        Binding(name, funcName, f.ret, c) + LogPassThrough(name, funcName)
      else
        Binding(name, funcName, f.ret, c) + Wrapper(f, name, c, funcName)
  }

  /** The function section: its heading, then every function in the order
      the parser lists them. */
  function FunctionSection(fns: seq<Function>): string {
    "\n# Function definitions\n" + FunctionBlocks(fns)
  }

  function FunctionBlocks(fns: seq<Function>): string {
    if fns == [] then "" else FunctionBlock(fns[0]) + FunctionBlocks(fns[1..])
  }
}

/** Properties of the function emitter: naming, the call string, and the
    result and argument conventions chosen from a function's name and
    signature. */
module EmitterProperties {
  import opened TypeModel
  import opened Text
  import opened TypeRenderer
  import opened FunctionEmitter

  /** Two unnamed parameters at different positions get different names. */
  lemma SyntheticNamesDistinct(p: Param, q: Param, i: nat, j: nat)
    requires p.name == "" && q.name == "" && i != j
    ensures ParamName(p, i) != ParamName(q, j)
  {
    ParamNameIsSafe(p, i);
    ParamNameIsSafe(q, j);
    if ParamName(p, i) == ParamName(q, j) {
      assert ("arg" + NatString(i))[3..] == NatString(i);
      assert ("arg" + NatString(j))[3..] == NatString(j);
      NatStringInjective(i, j);
    }
  }

  /** With conversion on, an argument is wrapped in `cstr` exactly when its
      parameter is a C string; with conversion off, never. */
  lemma StringArgumentsConverted(p: Param, index: nat, swizzle: bool)
    ensures CallArg(p, index, swizzle) == "cstr(" + ParamName(p, index) + ")" <==> swizzle && IsCharPointer(p.ty)
    ensures !(swizzle && IsCharPointer(p.ty)) ==> CallArg(p, index, swizzle) == ParamName(p, index)
  {
    var n := ParamName(p, index);
    assert |"cstr(" + n + ")"| > |n|;
  }

  /** The decisions taken from a function's name and result: a string result
      is a pointer result; `BNAllocString` never takes the string path and
      renders its result opaque; only the two free-string functions skip
      argument conversion; the free routine is the Rust one exactly for
      names starting with `BNRust`. */
  lemma ConventionRules(name: string, ret: Type)
    ensures var c := ConventionsOf(name, ret);
      && (c.stringResult ==> c.pointerResult)
      && (c.stringResult <==> IsStringFieldType(ret) && name != "BNAllocString")
      && (name == "BNAllocString" ==> !c.stringResult && c.callbackConvention)
      && (!c.swizzleArgs <==> name == "BNFreeString" || name == "BNRustFreeString")
      && (FreeRoutine(c) == "BNRustFreeString" <==> StartsWith(name, "BNRust"))
  {
  }

  predicate IsFreeLine(line: string) {
    line == FreeLine("BNFreeString") || line == FreeLine("BNRustFreeString")
  }

  function CountFrees(lines: seq<string>): nat {
    if lines == [] then 0 else FreeCount(lines[0]) + CountFrees(lines[1..])
  }

  /** A free line has 'B' after its tab and is 22 or 26 characters long. */
  lemma NotFreeLine(line: string)
    requires (|line| > 1 && line[1] != 'B') || (|line| != 22 && |line| != 26)
    ensures !IsFreeLine(line)
  {
  }

  /** A wrapper frees native memory exactly once when, and only when, the
      result is a string, and that free uses the routine the name selects;
      a pointer result that is not a string is checked against null. */
  lemma StringResultFreedOnce(c: Conventions, call: string)
    ensures CountFrees(WrapperBody(c, call)) == (if c.stringResult then 1 else 0)
    ensures c.stringResult ==> WrapperBody(c, call)[2] == FreeLine(FreeRoutine(c))
    ensures "\tif not result:\n" in WrapperBody(c, call) <==> !c.stringResult && c.pointerResult
  {
    if c.stringResult {
      StringBodyFrees(c, call);
    } else if c.pointerResult {
      PointerBodyFrees(c, call);
    } else {
      var body := WrapperBody(c, call);
      NotFreeLine(body[0]);
      assert body[1..] == [];
      assert "\treturn " + call + "\n" != "\tif not result:\n" by {
        assert ("\treturn " + call + "\n")[2] != ("\tif not result:\n")[2];
      }
    }
  }

  function FreeCount(line: string): nat {
    if IsFreeLine(line) then 1 else 0
  }

  /** Counting the frees of a four-line body, line by line. */
  lemma CountFreesFour(body: seq<string>)
    requires |body| == 4
    ensures CountFrees(body) == FreeCount(body[0]) + FreeCount(body[1]) + FreeCount(body[2]) + FreeCount(body[3])
  {
    assert body[3..][1..] == [];
    assert CountFrees(body[3..]) == FreeCount(body[3]);
    assert body[2..][1..] == body[3..];
    assert CountFrees(body[2..]) == FreeCount(body[2]) + CountFrees(body[3..]);
    assert body[1..][1..] == body[2..];
    assert CountFrees(body[1..]) == FreeCount(body[1]) + CountFrees(body[2..]);
  }

  lemma StringBodyFrees(c: Conventions, call: string)
    requires c.stringResult
    ensures CountFrees(WrapperBody(c, call)) == 1
    ensures "\tif not result:\n" !in WrapperBody(c, call)
  {
    var body := WrapperBody(c, call);
    StringBodyLines(c, call);
    CountFreesFour(body);
    assert body[0] != "\tif not result:\n" by {
      assert body[0][2] != ("\tif not result:\n")[2];
    }
  }

  /** Line by line, the body of a string-returning wrapper: only its third
      line frees, and no line has the length of the null check. */
  lemma StringBodyLines(c: Conventions, call: string)
    requires c.stringResult
    ensures var body := WrapperBody(c, call);
      && |body| == 4
      && FreeCount(body[0]) == 0 && FreeCount(body[1]) == 0 && FreeCount(body[2]) == 1 && FreeCount(body[3]) == 0
      && |body[1]| != 16 && |body[2]| != 16 && |body[3]| != 16
  {
    var body := WrapperBody(c, call);
    NotFreeLine(body[0]);
    NotFreeLine(body[1]);
    NotFreeLine(body[3]);
  }

  lemma PointerBodyFrees(c: Conventions, call: string)
    requires !c.stringResult && c.pointerResult
    ensures CountFrees(WrapperBody(c, call)) == 0
    ensures "\tif not result:\n" in WrapperBody(c, call)
  {
    var body := WrapperBody(c, call);
    assert FreeCount(body[0]) + FreeCount(body[1]) + FreeCount(body[2]) + FreeCount(body[3]) == 0 by {
      NotFreeLine(body[0]);
      NotFreeLine(body[1]);
      NotFreeLine(body[2]);
      NotFreeLine(body[3]);
    }
    CountFreesFour(body);
    assert body[1] == "\tif not result:\n";
  }

  /** `BNAllocString` returns a raw `char *` to callbacks: its result type
      is an opaque pointer and its wrapper frees nothing. */
  lemma AllocStringExemption(ret: Type, call: string)
    requires ret.cls.PointerClass?
    ensures var c := ConventionsOf("BNAllocString", ret);
      && RenderType(ret, true, c.callbackConvention) == "ctypes.c_void_p"
      && CountFrees(WrapperBody(c, call)) == 0
  {
    StringResultFreedOnce(ConventionsOf("BNAllocString", ret), call);
  }

  /** The free-string functions take strings the core allocated: their
      parameters are declared as in a result position (a byte pointer for a
      C string, never `c_char_p`), annotated with the exact rendering, and
      passed through unconverted. */
  lemma FreeStringArgumentsStayNative(name: string, ret: Type, p: Param, index: nat)
    requires name == "BNFreeString" || name == "BNRustFreeString"
    ensures var c := ConventionsOf(name, ret);
      && ArgTypeLine(p, !c.swizzleArgs) == "\t\t" + RenderType(p.ty, true, false) + ",\n"
      && (IsCharPointer(p.ty) ==> RenderType(p.ty, !c.swizzleArgs, false) == "ctypes.POINTER(ctypes.c_byte)")
      && ParamAnnotation(p, c.swizzleArgs) == RenderType(p.ty, false, false)
      && CallArg(p, index, c.swizzleArgs) == ParamName(p, index)
  {
  }

  /** A C string result is annotated as an optional of an optional string. */
  lemma StringResultAnnotation(name: string, ret: Type)
    requires IsCharPointer(ret)
    ensures ReturnAnnotation(ConventionsOf(name, ret), ret) == "Optional[Optional[str]]"
  {
  }

  /** A variadic function that is not a logging function still gets a
      wrapper: its signature lists no parameters while its call passes one
      argument per declared parameter. */
  lemma VariadicWrapperMismatch(f: Function)
    requires |f.name| == 1 && f.variadic && !StartsWith(f.name[0], "BNLog")
    ensures var name := f.name[0];
      var c := ConventionsOf(name, f.ret);
      && FunctionBlock(f) == Binding(name, "_" + name, f.ret, c) + Wrapper(f, name, c, "_" + name)
      && WrapperSignature(f, c) == ""
      && |CallArgs(f.params, c.swizzleArgs)| == |f.params|
  {
    LogPrefix(f.name[0]);
  }

  lemma LogPrefix(name: string)
    ensures StartsWith("_" + name, "_BNLog") <==> StartsWith(name, "BNLog")
  {
    var u := "_" + name;
    if |name| >= 5 {
      assert u[1..6] == name[..5];
      if u[..6] == "_BNLog" {
        assert u[1..6] == u[..6][1..];
      }
    }
  }

  /** A variadic logging function gets a pass-through that converts every
      argument, with `BNLog` itself keeping its level argument first. */
  lemma LogFunctionsPassThrough(f: Function)
    requires |f.name| == 1 && f.variadic && StartsWith(f.name[0], "BNLog")
    ensures var name := f.name[0];
      && FunctionBlock(f) == Binding(name, "_" + name, f.ret, ConventionsOf(name, f.ret))
                               + LogPassThrough(name, "_" + name)
      && (name == "BNLog" ==>
            LogPassThrough(name, "_" + name) ==
            "def " + name + "(level, *args):\n\treturn _" + name + "(level, *[cstr(arg) for arg in args])\n\n")
      && (name != "BNLog" ==>
            LogPassThrough(name, "_" + name) ==
            "def " + name + "(*args):\n\treturn _" + name + "(*[cstr(arg) for arg in args])\n\n")
  {
    var name := f.name[0];
    var funcName := "_" + name;
    LogPrefix(name);
    if name != "BNLog" {
      assert funcName != "_BNLog";
    }
  }
}
