/** The generator's run once the header is parsed: the type definitions,
    the structure layouts in dependency order, then the function bindings,
    stopping with exit code 1 when the structures cannot be ordered. */
module Generator {
  import opened TypeModel
  import opened StructResolver
  import opened FunctionEmitter
  import opened TypeSection

  /** The lookup table the resolver consults: each parsed name bound to its
      type, a later entry replacing an earlier one of the same name. */
  function TypeMapOf(es: seq<ParsedType>): (m: TypeMap)
    ensures m.Keys == set i | 0 <= i < |es| :: es[i].name
  {
    if es == [] then map[]
    else
      var front := es[..|es| - 1];
      var m := TypeMapOf(front)[es[|es| - 1].name := es[|es| - 1].ty];
      assert m.Keys == (set i | 0 <= i < |front| :: front[i].name) + {es[|es| - 1].name};
      m
  }

  /** Each parsed name is bound to the type of its last entry: a later
      entry of the same name replaces an earlier one. */
  lemma {:induction false} TypeMapOfLastEntryWins(es: seq<ParsedType>, i: nat)
    requires i < |es|
    requires forall j :: i < j < |es| ==> es[j].name != es[i].name
    ensures TypeMapOf(es)[es[i].name] == es[i].ty
  {
    var front := es[..|es| - 1];
    if i < |es| - 1 {
      assert es[|es| - 1].name != es[i].name;
      TypeMapOfLastEntryWins(front, i);
    }
  }

  /** The sections after the fixed prelude. The binding module gets the type
      definitions, the structure layouts in `order` and, when every
      structure could be laid out, the function bindings; the enumeration
      module gets one class per enumeration. When the structures cannot be
      ordered, the run stops with exit code 1 and `cycle` holds the
      structures left waiting. */
  method Generate(types: seq<ParsedType>, functions: seq<Function>)
    returns (exitCode: int, bindings: string, enums: string, order: seq<QName>, cycle: set<QName>)
    requires ReferencesResolve(TypeMapOf(types))
    ensures exitCode == 0 || exitCode == 1
    ensures exitCode == 0 <==> HasLayering(TypeMapOf(types))
    ensures enums == TypeDefinitions(types).enums
    ensures Distinct(order) && AllSchedulable(TypeMapOf(types), order)
    ensures Topological(TypeMapOf(types), order)
    ensures exitCode == 0 ==> Elems(order) == ScheduledNames(TypeMapOf(types)) && cycle == {}
    ensures exitCode == 0 ==>
      bindings == TypeDefinitionSection(types) + "\n# Structure definitions\n"
                    + Blocks(TypeMapOf(types), order) + FunctionSection(functions)
    ensures exitCode == 1 ==>
      && bindings == TypeDefinitionSection(types) + "\n# Structure definitions\n" + Blocks(TypeMapOf(types), order)
      && cycle != {} && cycle == ScheduledNames(TypeMapOf(types)) - Elems(order)
  {
    var typeMap := TypeMapOf(types);
    var definitions := TypeDefinitions(types);
    enums := definitions.enums;
    bindings := "# Type definitions\n" + definitions.bindings;
    bindings := bindings + "\n# Structure definitions\n";
    var ok, structText;
    ok, order, cycle, structText := ResolveStructuresFixed(typeMap);
    ReadyIsTopological(typeMap, order);
    bindings := bindings + structText;
    if !ok {
      exitCode := 1;
      return;
    }
    bindings := bindings + FunctionSection(functions);
    exitCode := 0;
  }
}
