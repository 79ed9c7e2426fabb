/** The structure section of the binding module: a fixed-point loop that
    emits each structure's `_fields_` only once every structure that one of
    its members names directly as its type has been emitted, re-exports
    aliases, and gives up with the
    names it could not finish when a pass makes no progress. */
module StructResolver {
  import opened TypeModel
  import opened NameOrder
  import opened TypeRenderer
  import opened Text

  type TypeMap = map<QName, Type>

  /** A structure with at least one member. */
  predicate HasFields(t: Type) {
    t.cls.StructureClass? && |t.cls.members| != 0
  }

  predicate IsAlias(t: Type) {
    t.cls.NamedTypeReferenceClass?
  }

  /** An entry the structure section writes something for: a one-segment
      name bound to a structure with members or to an alias. Every other
      entry is dropped on its first visit. */
  predicate Schedulable(types: TypeMap, n: QName) {
    |n| == 1 && n in types && (HasFields(types[n]) || IsAlias(types[n]))
  }

  function ScheduledNames(types: TypeMap): set<QName> {
    set n | n in types && Schedulable(types, n)
  }

  predicate MemberResolves(types: TypeMap, m: Member) {
    m.ty.cls.NamedTypeReferenceClass? ==> m.ty.cls.ref in types
  }

  predicate AllMembersResolve(types: TypeMap, ms: seq<Member>) {
    forall i :: 0 <= i < |ms| ==> MemberResolves(types, ms[i])
  }

  /** Every name a member of a structure refers to is a parsed type. */
  predicate ReferencesResolve(types: TypeMap) {
    forall n :: n in types && HasFields(types[n]) ==> AllMembersResolve(types, types[n].cls.members)
  }

  /** Member `m` names a structure that is not finished yet. */
  predicate BlocksOn(types: TypeMap, m: Member, finished: set<QName>) {
    && m.ty.cls.NamedTypeReferenceClass?
    && m.ty.cls.ref in types
    && types[m.ty.cls.ref].cls.StructureClass?
    && m.ty.cls.ref !in finished
  }

  /** Structure `n` has to wait for a member's structure. */
  predicate WaitsOn(types: TypeMap, n: QName, finished: set<QName>) {
    && n in types && HasFields(types[n])
    && exists i :: 0 <= i < |types[n].cls.members| && BlocksOn(types, types[n].cls.members[i], finished)
  }

  /** Structure type `t` has a member whose type is a direct reference to
      structure `d` (not an array of it, nor an alias of it). */
  predicate ContainsStruct(types: TypeMap, t: Type, d: QName) {
    && t.cls.StructureClass?
    && d in types && types[d].cls.StructureClass?
    && exists i :: 0 <= i < |t.cls.members|
         && t.cls.members[i].ty.cls.NamedTypeReferenceClass? && t.cls.members[i].ty.cls.ref == d
  }

  /** Every entry of `order` comes after each structure that one of its
      members names directly as its type. */
  ghost predicate Topological(types: TypeMap, order: seq<QName>) {
    forall k, d :: 0 <= k < |order| && order[k] in types && ContainsStruct(types, types[order[k]], d) ==>
      d in order[..k]
  }

  function Elems(s: seq<QName>): set<QName> {
    set x | x in s
  }

  predicate Distinct(s: seq<QName>) {
    forall i, j :: 0 <= i < j < |s| ==> s[i] != s[j]
  }

  predicate Ascending(s: seq<QName>) {
    forall i, j :: 0 <= i < j < |s| ==> NameLess(s[i], s[j])
  }

  predicate AllSchedulable(types: TypeMap, s: seq<QName>) {
    forall k :: 0 <= k < |s| ==> Schedulable(types, s[k])
  }

  /** Entry k of `s` did not have to wait, given what was finished before
      the pass plus the entries before it. */
  predicate ReadyInTurn(types: TypeMap, s: seq<QName>, before: set<QName>) {
    forall k :: 0 <= k < |s| ==> !WaitsOn(types, s[k], before + Elems(s[..k]))
  }

  /** The entries of `emitted` a pass visits before `d`. */
  function EmittedBefore(emitted: seq<QName>, d: QName): set<QName> {
    set e | e in emitted && NameLess(e, d)
  }

  // ---- Text ----

  /** One `_fields_` entry. A text field is stored under a leading
      underscore so that the class's property can convert it. */
  function FieldEntry(m: Member): string {
    "\t\t(\"" + (if IsStringFieldType(m.ty) then "_" else "") + m.name + "\", "
      + RenderType(m.ty, false, false) + "),\n"
  }

  function FieldEntries(ms: seq<Member>): string {
    if ms == [] then "" else FieldEntry(ms[0]) + FieldEntries(ms[1..])
  }

  function FieldsBlock(name: string, ms: seq<Member>): string {
    name + "._fields_ = [\n" + FieldEntries(ms) + "\t]\n"
  }

  function AliasBlock(name: string, target: string): string {
    name + " = " + target + "\n" + name + "Handle = " + target + "Handle\n"
  }

  function Block(types: TypeMap, n: QName): string {
    if !Schedulable(types, n) then ""
    else if HasFields(types[n]) then FieldsBlock(n[0], types[n].cls.members)
    else AliasBlock(n[0], NameString(types[n].cls.ref))
  }

  /** The text written for the entries of `order`, in that order. */
  function Blocks(types: TypeMap, order: seq<QName>): string {
    if order == [] then "" else Blocks(types, order[..|order| - 1]) + Block(types, order[|order| - 1])
  }

  lemma BlocksSnoc(types: TypeMap, s: seq<QName>, n: QName)
    ensures Blocks(types, s + [n]) == Blocks(types, s) + Block(types, n)
  {
    assert (s + [n])[..|s|] == s;
  }

  lemma {:induction false} BlocksAppend(types: TypeMap, a: seq<QName>, b: seq<QName>)
    ensures Blocks(types, a + b) == Blocks(types, a) + Blocks(types, b)
    decreases |b|
  {
    if b == [] {
      assert a + b == a;
    } else {
      var b', last := b[..|b| - 1], b[|b| - 1];
      assert Blocks(types, a + b) == Blocks(types, a + b') + Block(types, last) by {
        assert a + b == (a + b') + [last];
        BlocksSnoc(types, a + b', last);
      }
      assert Blocks(types, b) == Blocks(types, b') + Block(types, last) by {
        assert b == b' + [last];
        BlocksSnoc(types, b', last);
      }
      BlocksAppend(types, a, b');
      ConcatAssoc(Blocks(types, a), Blocks(types, b'), Block(types, last));
    }
  }

  // ---- The resolver ----

  /** The scan over a structure's members for one that names an unfinished
      structure; it stops at the first. */
  method RequiresDependency(types: TypeMap, members: seq<Member>, finished: set<QName>) returns (waits: bool)
    requires AllMembersResolve(types, members)
    ensures waits <==> exists i :: 0 <= i < |members| && BlocksOn(types, members[i], finished)
  {
    for i := 0 to |members|
      invariant forall j :: 0 <= j < i ==> !BlocksOn(types, members[j], finished)
    {
      var m := members[i];
      if m.ty.cls.NamedTypeReferenceClass? && types[m.ty.cls.ref].cls.StructureClass? && m.ty.cls.ref !in finished {
        return true;
      }
    }
    return false;
  }

  /** One pass over the pending names, in ascending name order. A structure
      with members is emitted when none of its members waits, and deferred
      otherwise; an alias is emitted; anything else is dropped. The result
      is determined entry by entry: every emitted entry was ready and every
      deferred one was waiting, given what was finished when it was visited. */
  method RunPass(types: TypeMap, pending: set<QName>, finished: set<QName>)
    returns (deferred: set<QName>, emitted: seq<QName>, finishedAfter: set<QName>, processedSome: bool, text: string)
    requires ReferencesResolve(types)
    requires pending <= types.Keys && pending !! finished
    ensures processedSome <==> emitted != []
    ensures finishedAfter == finished + Elems(emitted)
    ensures Elems(emitted) + deferred == pending * ScheduledNames(types)
    ensures Elems(emitted) !! deferred
    ensures Distinct(emitted) && AllSchedulable(types, emitted) && Ascending(emitted)
    ensures ReadyInTurn(types, emitted, finished)
    ensures forall d :: d in deferred ==> WaitsOn(types, d, finished + EmittedBefore(emitted, d))
    ensures text == Blocks(types, emitted)
  {
    var todo := pending;
    ghost var visited: set<QName> := {};
    deferred, emitted, finishedAfter, processedSome, text := {}, [], finished, false, "";
    PassStart(types, pending, finished);
    while todo != {}
      decreases |todo|
      invariant PassInvariant(types, pending, finished, todo, visited, deferred, emitted, finishedAfter, text)
      invariant processedSome <==> emitted != []
    {
      LeastExists(todo);
      var n :| IsLeast(n, todo);
      var finishedNow;
      deferred, emitted, finishedAfter, text, finishedNow :=
        Visit(types, pending, finished, todo, visited, deferred, emitted, finishedAfter, text, n);
      processedSome := processedSome || finishedNow;
      todo := todo - {n};
      visited := visited + {n};
    }
    PassDone(types, pending, finished, visited, deferred, emitted, finishedAfter, text);
  }

  /** The body of a pass for the entry `n` it visits: a multi-segment name
      is dropped; a structure with members is deferred if a member waits
      and emitted otherwise; an alias is emitted; anything else is dropped. */
  method Visit(types: TypeMap, pending: set<QName>, finished: set<QName>,
               ghost todo: set<QName>, ghost visited: set<QName>, deferred: set<QName>,
               emitted: seq<QName>, finishedAfter: set<QName>, text: string, n: QName)
    returns (deferred': set<QName>, emitted': seq<QName>, finishedAfter': set<QName>, text': string, finishedNow: bool)
    requires ReferencesResolve(types) && pending <= types.Keys
    requires PassInvariant(types, pending, finished, todo, visited, deferred, emitted, finishedAfter, text)
    requires IsLeast(n, todo)
    ensures PassInvariant(types, pending, finished, todo - {n}, visited + {n}, deferred', emitted', finishedAfter', text')
    ensures finishedNow <==> emitted' == emitted + [n]
    ensures !finishedNow ==> emitted' == emitted
  {
    deferred', emitted', finishedAfter', text', finishedNow := deferred, emitted, finishedAfter, text, false;
    if |n| != 1 {
      VisitDrop(types, pending, finished, todo, visited, deferred, emitted, finishedAfter, text, n);
      return;
    }
    var t := types[n];
    if t.cls.StructureClass? && |t.cls.members| != 0 {
      var waits := RequiresDependency(types, t.cls.members, finishedAfter);
      if waits {
        VisitDefer(types, pending, finished, todo, visited, deferred, emitted, finishedAfter, text, n);
        deferred' := deferred + {n};
      } else {
        VisitEmit(types, pending, finished, todo, visited, deferred, emitted, finishedAfter, text, n);
        assert Block(types, n) == FieldsBlock(n[0], t.cls.members);
        text' := text + FieldsBlock(n[0], t.cls.members);
        emitted' := emitted + [n];
        finishedAfter' := finishedAfter + {n};
        finishedNow := true;
      }
    } else if t.cls.NamedTypeReferenceClass? {
      VisitEmit(types, pending, finished, todo, visited, deferred, emitted, finishedAfter, text, n);
      assert Block(types, n) == AliasBlock(n[0], NameString(t.cls.ref));
      text' := text + AliasBlock(n[0], NameString(t.cls.ref));
      emitted' := emitted + [n];
      finishedAfter' := finishedAfter + {n};
      finishedNow := true;
    } else {
      VisitDrop(types, pending, finished, todo, visited, deferred, emitted, finishedAfter, text, n);
    }
  }

  lemma PassStart(types: TypeMap, pending: set<QName>, finished: set<QName>)
    requires pending !! finished
    ensures PassInvariant(types, pending, finished, pending, {}, {}, [], finished, "")
  {
    assert Elems([]) == {};
  }

  /** Once nothing is left to visit, the invariant gives the pass's
      contract. */
  lemma PassDone(types: TypeMap, pending: set<QName>, finished: set<QName>, visited: set<QName>,
                 deferred: set<QName>, emitted: seq<QName>, finishedAfter: set<QName>, text: string)
    requires PassInvariant(types, pending, finished, {}, visited, deferred, emitted, finishedAfter, text)
    ensures finishedAfter == finished + Elems(emitted)
    ensures Elems(emitted) + deferred == pending * ScheduledNames(types)
    ensures Elems(emitted) !! deferred
    ensures Distinct(emitted) && AllSchedulable(types, emitted) && Ascending(emitted)
    ensures ReadyInTurn(types, emitted, finished)
    ensures forall d :: d in deferred ==> WaitsOn(types, d, finished + EmittedBefore(emitted, d))
    ensures text == Blocks(types, emitted)
  {
  }

  /** The loop invariant of a pass: `visited` are the names seen so far,
      all before every name still `todo`. */
  ghost predicate PassInvariant(types: TypeMap, pending: set<QName>, finished: set<QName>,
                                todo: set<QName>, visited: set<QName>, deferred: set<QName>,
                                emitted: seq<QName>, finishedAfter: set<QName>, text: string)
  {
    && todo + visited == pending && todo !! visited && pending !! finished
    && finishedAfter == finished + Elems(emitted)
    && Elems(emitted) <= visited && deferred <= visited && Elems(emitted) !! deferred
    && (forall x :: x in visited && Schedulable(types, x) ==> x in deferred || x in Elems(emitted))
    && (forall x :: x in deferred ==> Schedulable(types, x))
    && Distinct(emitted) && AllSchedulable(types, emitted) && Ascending(emitted)
    && (forall v, w :: v in visited && w in todo ==> NameLess(v, w))
    && ReadyInTurn(types, emitted, finished)
    && (forall d :: d in deferred ==> WaitsOn(types, d, finished + EmittedBefore(emitted, d)))
    && text == Blocks(types, emitted)
  }

  lemma VisitDrop(types: TypeMap, pending: set<QName>, finished: set<QName>,
                  todo: set<QName>, visited: set<QName>, deferred: set<QName>,
                  emitted: seq<QName>, finishedAfter: set<QName>, text: string, n: QName)
    requires PassInvariant(types, pending, finished, todo, visited, deferred, emitted, finishedAfter, text)
    requires IsLeast(n, todo) && !Schedulable(types, n)
    ensures PassInvariant(types, pending, finished, todo - {n}, visited + {n}, deferred, emitted, finishedAfter, text)
  {
    forall v, w | v in visited + {n} && w in todo - {n} ensures NameLess(v, w) {
    }
  }

  lemma VisitDefer(types: TypeMap, pending: set<QName>, finished: set<QName>,
                   todo: set<QName>, visited: set<QName>, deferred: set<QName>,
                   emitted: seq<QName>, finishedAfter: set<QName>, text: string, n: QName)
    requires PassInvariant(types, pending, finished, todo, visited, deferred, emitted, finishedAfter, text)
    requires IsLeast(n, todo) && Schedulable(types, n) && WaitsOn(types, n, finishedAfter)
    ensures PassInvariant(types, pending, finished, todo - {n}, visited + {n}, deferred + {n}, emitted, finishedAfter, text)
  {
    assert EmittedBefore(emitted, n) == Elems(emitted);
    forall v, w | v in visited + {n} && w in todo - {n} ensures NameLess(v, w) {
    }
  }

  lemma VisitEmit(types: TypeMap, pending: set<QName>, finished: set<QName>,
                  todo: set<QName>, visited: set<QName>, deferred: set<QName>,
                  emitted: seq<QName>, finishedAfter: set<QName>, text: string, n: QName)
    requires PassInvariant(types, pending, finished, todo, visited, deferred, emitted, finishedAfter, text)
    requires IsLeast(n, todo) && Schedulable(types, n) && !WaitsOn(types, n, finishedAfter)
    ensures PassInvariant(types, pending, finished, todo - {n}, visited + {n}, deferred,
                          emitted + [n], finishedAfter + {n}, text + Block(types, n))
  {
    var emitted' := emitted + [n];
    assert && ReadyInTurn(types, emitted', finished)
           && Ascending(emitted') && AllSchedulable(types, emitted') && Distinct(emitted')
           && Elems(emitted') == Elems(emitted) + {n}
           && (forall d :: d in deferred ==> WaitsOn(types, d, finished + EmittedBefore(emitted', d)))
           && Blocks(types, emitted') == Blocks(types, emitted) + Block(types, n) by {
      assert forall v :: v in visited ==> NameLess(v, n);
      Emit(types, n, emitted, deferred, finished);
    }
    forall v, w | v in visited + {n} && w in todo - {n} ensures NameLess(v, w) {
    }
    forall x | x in visited + {n} && Schedulable(types, x) ensures x in deferred || x in Elems(emitted + [n]) {
    }
  }

  /** What appending a visited entry `n` to the emitted list preserves. */
  lemma Emit(types: TypeMap, n: QName, emitted: seq<QName>, deferred: set<QName>, finished: set<QName>)
    requires Schedulable(types, n) && !WaitsOn(types, n, finished + Elems(emitted))
    requires forall e :: e in Elems(emitted) ==> NameLess(e, n)
    requires forall d :: d in deferred ==> NameLess(d, n)
    requires Distinct(emitted) && n !in Elems(emitted)
    requires ReadyInTurn(types, emitted, finished) && Ascending(emitted) && AllSchedulable(types, emitted)
    requires forall d :: d in deferred ==> WaitsOn(types, d, finished + EmittedBefore(emitted, d))
    ensures ReadyInTurn(types, emitted + [n], finished)
    ensures Ascending(emitted + [n]) && AllSchedulable(types, emitted + [n])
    ensures Elems(emitted + [n]) == Elems(emitted) + {n}
    ensures Distinct(emitted + [n])
    ensures forall d :: d in deferred ==> WaitsOn(types, d, finished + EmittedBefore(emitted + [n], d))
    ensures Blocks(types, emitted + [n]) == Blocks(types, emitted) + Block(types, n)
  {
    var s := emitted + [n];
    assert s[..|s| - 1] == emitted;
    forall k | 0 <= k < |s| ensures !WaitsOn(types, s[k], finished + Elems(s[..k])) {
      if k < |emitted| {
        assert s[..k] == emitted[..k];
      } else {
        assert s[..k] == emitted;
      }
    }
    forall i, j | 0 <= i < j < |s| ensures s[i] != s[j] {
      if j == |emitted| { assert s[i] in Elems(emitted); }
    }
    forall d | d in deferred ensures EmittedBefore(s, d) == EmittedBefore(emitted, d) {
      NameLessAsymmetric(d, n);
    }
  }

  /** Aliases are emitted in the first pass, whatever they refer to. */
  predicate AliasesEmitted(types: TypeMap, done: set<QName>) {
    forall a :: a in types && Schedulable(types, a) && IsAlias(types[a]) ==> a in done
  }

  /** `rank` witnesses that direct structure references between members are
      well founded and only reach structures the resolver can finish: every
      structure named directly as a member's type in a structure with
      members is itself a one-segment structure with members, of smaller
      rank. */
  ghost predicate Layered(types: TypeMap, rank: map<QName, nat>) {
    forall n :: n in types && Schedulable(types, n) && HasFields(types[n]) ==>
      && n in rank
      && forall d :: ContainsStruct(types, types[n], d) ==>
           Schedulable(types, d) && HasFields(types[d]) && d in rank && rank[d] < rank[n]
  }

  ghost predicate HasLayering(types: TypeMap) {
    exists rank :: Layered(types, rank)
  }

  lemma {:induction false} MinRankExists(s: set<QName>, rank: map<QName, nat>)
    requires s != {} && s <= rank.Keys
    ensures exists n :: n in s && forall m :: m in s ==> rank[n] <= rank[m]
    decreases |s|
  {
    var x :| x in s;
    if s - {x} == {} {
      assert s == {x};
    } else {
      MinRankExists(s - {x}, rank);
      var n :| n in s - {x} && forall m :: m in s - {x} ==> rank[n] <= rank[m];
      if rank[x] < rank[n] {
        assert forall m :: m in s ==> rank[x] <= rank[m];
      } else {
        assert forall m :: m in s ==> rank[n] <= rank[m];
      }
    }
  }

  /** Under a layering, a set of unfinished structures that all wait on
      something unfinished is empty: the least-ranked one would wait on a
      structure of smaller rank that is itself unfinished. */
  lemma StuckSetIsEmpty(types: TypeMap, rank: map<QName, nat>, finished: set<QName>, stuck: set<QName>)
    requires Layered(types, rank)
    requires stuck == ScheduledNames(types) - finished
    requires forall d :: d in stuck ==> WaitsOn(types, d, finished)
    ensures stuck == {}
  {
    if stuck != {} {
      MinRankExists(stuck, rank);
      var n :| n in stuck && forall m :: m in stuck ==> rank[n] <= rank[m];
      var ms := types[n].cls.members;
      var i :| 0 <= i < |ms| && BlocksOn(types, ms[i], finished);
      var d := ms[i].ty.cls.ref;
      assert ContainsStruct(types, types[n], d);
      assert false;
    }
  }

  lemma ReadyIsTopological(types: TypeMap, order: seq<QName>)
    requires AllSchedulable(types, order) && ReadyInTurn(types, order, {})
    ensures Topological(types, order)
  {
    forall k, d | 0 <= k < |order| && order[k] in types && ContainsStruct(types, types[order[k]], d)
      ensures d in order[..k]
    {
      var ms := types[order[k]].cls.members;
      var i :| 0 <= i < |ms| && ms[i].ty.cls.NamedTypeReferenceClass? && ms[i].ty.cls.ref == d;
      assert !BlocksOn(types, ms[i], {} + Elems(order[..k]));
    }
  }

  /** Appending one pass's output to the order keeps every entry ready in
      its turn. */
  lemma ReadyAppend(types: TypeMap, order: seq<QName>, emitted: seq<QName>)
    requires ReadyInTurn(types, order, {}) && ReadyInTurn(types, emitted, Elems(order))
    ensures ReadyInTurn(types, order + emitted, {})
  {
    var s := order + emitted;
    forall k | 0 <= k < |s| ensures !WaitsOn(types, s[k], {} + Elems(s[..k])) {
      if k < |order| {
        assert s[..k] == order[..k];
      } else {
        assert s[..k] == order + emitted[..k - |order|];
        assert Elems(s[..k]) == Elems(order) + Elems(emitted[..k - |order|]);
      }
    }
  }

  lemma DistinctAppend(a: seq<QName>, b: seq<QName>)
    requires Distinct(a) && Distinct(b) && Elems(a) !! Elems(b)
    ensures Distinct(a + b) && Elems(a + b) == Elems(a) + Elems(b)
  {
    var s := a + b;
    forall i, j | 0 <= i < j < |s| ensures s[i] != s[j] {
      if i < |a| && j >= |a| {
        assert s[i] in Elems(a) && s[j] in Elems(b);
      }
    }
  }

  // ---- The fixed-point loop ----

  /** What holds between passes: `finished` is what `order` emitted,
      `pending` covers every schedulable name not finished yet, and after
      the first pass `pending` holds only schedulable names and every alias
      is finished. */
  ghost predicate ResolveInvariant(types: TypeMap, pending: set<QName>, finished: set<QName>,
                                   order: seq<QName>, text: string, firstPass: bool)
  {
    && pending <= types.Keys && pending !! finished
    && finished == Elems(order)
    && ScheduledNames(types) - finished <= pending
    && (firstPass ==> pending == types.Keys && order == [])
    && (!firstPass ==> pending <= ScheduledNames(types) && AliasesEmitted(types, finished))
    && Distinct(order) && AllSchedulable(types, order) && ReadyInTurn(types, order, {})
    && text == Blocks(types, order)
  }

  lemma ResolveStart(types: TypeMap)
    ensures ResolveInvariant(types, types.Keys, {}, [], "", true)
  {
    assert Elems([]) == {};
  }

  /** A pass that finished something advances the invariant and strictly
      shrinks the pending set. */
  lemma ResolveStep(types: TypeMap, pending: set<QName>, finished: set<QName>, order: seq<QName>,
                    text: string, firstPass: bool,
                    deferred: set<QName>, emitted: seq<QName>, finishedAfter: set<QName>, passText: string)
    requires ResolveInvariant(types, pending, finished, order, text, firstPass)
    requires finishedAfter == finished + Elems(emitted)
    requires Elems(emitted) + deferred == pending * ScheduledNames(types)
    requires Elems(emitted) !! deferred
    requires Distinct(emitted) && AllSchedulable(types, emitted)
    requires ReadyInTurn(types, emitted, finished)
    requires forall d :: d in deferred ==> WaitsOn(types, d, finished + EmittedBefore(emitted, d))
    requires passText == Blocks(types, emitted)
    ensures ResolveInvariant(types, deferred, finishedAfter, order + emitted, text + passText, false)
    ensures emitted != [] ==> |deferred| < |pending|
  {
    DistinctAppend(order, emitted);
    ReadyAppend(types, order, emitted);
    BlocksAppend(types, order, emitted);
    AliasesAfterPass(types, pending, finished, firstPass, deferred, emitted);
    if emitted != [] {
      PassShrinks(pending, deferred, emitted);
    }
  }

  /** Aliases are never deferred, so after the first pass every alias is
      finished. */
  lemma AliasesAfterPass(types: TypeMap, pending: set<QName>, finished: set<QName>, firstPass: bool,
                         deferred: set<QName>, emitted: seq<QName>)
    requires firstPass ==> pending == types.Keys
    requires !firstPass ==> AliasesEmitted(types, finished)
    requires Elems(emitted) + deferred == pending * ScheduledNames(types)
    requires forall d :: d in deferred ==> WaitsOn(types, d, finished + EmittedBefore(emitted, d))
    ensures AliasesEmitted(types, finished + Elems(emitted))
  {
    forall a | a in types && Schedulable(types, a) && IsAlias(types[a]) ensures a in finished + Elems(emitted) {
      assert a !in deferred;
      if a !in finished {
        assert a in pending * ScheduledNames(types);
      }
    }
  }

  lemma PassShrinks(pending: set<QName>, deferred: set<QName>, emitted: seq<QName>)
    requires emitted != []
    requires Elems(emitted) + deferred <= pending && Elems(emitted) !! deferred
    ensures |deferred| < |pending|
  {
    assert emitted[0] in Elems(emitted);
    var gone := pending - deferred;
    assert emitted[0] in gone;
    assert pending == deferred + gone && deferred !! gone;
    assert |gone| > 0;
  }

  /** A pass that finished nothing leaves, as the names it gives up on,
      every schedulable name not finished, each waiting on an unfinished
      structure. */
  lemma ResolveStuck(types: TypeMap, pending: set<QName>, finished: set<QName>, order: seq<QName>,
                     text: string, firstPass: bool, deferred: set<QName>)
    requires ResolveInvariant(types, pending, finished, order, text, firstPass)
    requires deferred == pending * ScheduledNames(types)
    requires forall d :: d in deferred ==> WaitsOn(types, d, finished + EmittedBefore([], d))
    ensures deferred == ScheduledNames(types) - Elems(order)
    ensures forall d :: d in deferred ==> WaitsOn(types, d, Elems(order))
    ensures AliasesEmitted(types, Elems(order))
    ensures !firstPass ==> pending == deferred
  {
    assert forall d :: d in deferred ==> EmittedBefore([], d) == {};
    forall a | a in types && Schedulable(types, a) && IsAlias(types[a]) ensures a in finished {
      assert a !in deferred;
    }
  }

  /** A set of unfinished structures that all wait on something unfinished,
      as a stuck pass leaves, rules out a layering. */
  lemma StuckRefutesLayering(types: TypeMap, order: seq<QName>, deferred: set<QName>)
    requires deferred != {}
    requires deferred == ScheduledNames(types) - Elems(order)
    requires forall d :: d in deferred ==> WaitsOn(types, d, Elems(order))
    ensures !HasLayering(types)
  {
    if HasLayering(types) {
      var rank :| Layered(types, rank);
      StuckSetIsEmpty(types, rank, Elems(order), deferred);
      assert false;
    }
  }

  /** A complete emission order ranks every structure above the structures
      its members name directly, so it is a layering. */
  lemma OrderGivesLayering(types: TypeMap, order: seq<QName>)
    requires Distinct(order) && AllSchedulable(types, order) && ReadyInTurn(types, order, {})
    requires Elems(order) == ScheduledNames(types)
    ensures HasLayering(types)
  {
    ReadyIsTopological(types, order);
    var rank := map k | 0 <= k < |order| :: order[k] := k;
    forall n | n in types && Schedulable(types, n) && HasFields(types[n])
      ensures n in rank
      ensures forall d :: ContainsStruct(types, types[n], d) ==>
                Schedulable(types, d) && HasFields(types[d]) && d in rank && rank[d] < rank[n]
    {
      assert n in Elems(order);
      var k :| 0 <= k < |order| && order[k] == n;
      assert rank[n] == k;
      forall d | ContainsStruct(types, types[n], d)
        ensures Schedulable(types, d) && HasFields(types[d]) && d in rank && rank[d] < rank[n]
      {
        assert d in order[..k];
        var j :| 0 <= j < k && order[j] == d;
        assert rank[d] == j;
      }
    }
    assert Layered(types, rank);
  }

  /** A header whose only type is an enumeration: nothing is schedulable,
      yet the structures trivially admit a layering. The loop as written
      reports a dependency cycle for it; the corrected loop succeeds. */
  lemma EnumOnlyHeader()
    ensures var types := map[["BNLogLevel"] := Type(EnumerationClass([]), 4, true)];
      && ReferencesResolve(types) && HasLayering(types)
      && types.Keys != {} && ScheduledNames(types) == {}
  {
    var types := map[["BNLogLevel"] := Type(EnumerationClass([]), 4, true)];
    assert Layered(types, map[]);
    assert ["BNLogLevel"] in types.Keys;
    assert !Schedulable(types, ["BNLogLevel"]);
    assert forall n :: n in types ==> n == ["BNLogLevel"];
    assert ScheduledNames(types) == {};
  }

  /** The structure section as written: passes repeat until nothing is
      pending, and the run gives up (`ok` false, with the names still
      pending) on the first pass that finishes nothing, including a pass
      that had nothing schedulable to do. `order` is the order in which
      entries were emitted and `text` what was written. */
  method ResolveStructures(types: TypeMap) returns (ok: bool, order: seq<QName>, deferred: set<QName>, text: string)
    requires ReferencesResolve(types)
    ensures Distinct(order) && AllSchedulable(types, order) && ReadyInTurn(types, order, {})
    ensures text == Blocks(types, order)
    ensures AliasesEmitted(types, Elems(order))
    ensures ok ==> Elems(order) == ScheduledNames(types) && deferred == {}
    ensures !ok ==> deferred == ScheduledNames(types) - Elems(order)
    ensures !ok ==> forall d :: d in deferred ==> WaitsOn(types, d, Elems(order))
    ensures !ok && deferred == {} ==> order == [] && types.Keys != {} && ScheduledNames(types) == {}
    ensures ok <==> HasLayering(types) && (types.Keys == {} || ScheduledNames(types) != {})
  {
    var pending := types.Keys;
    var finished: set<QName> := {};
    ghost var firstPass := true;
    ok, order, deferred, text := true, [], {}, "";
    ResolveStart(types);
    while pending != {}
      decreases |pending|
      invariant ResolveInvariant(types, pending, finished, order, text, firstPass)
      invariant ok && deferred == {}
      invariant firstPass || order != []
    {
      var passDeferred, emitted, finishedAfter, processedSome, passText := RunPass(types, pending, finished);
      if !processedSome {
        ResolveStuck(types, pending, finished, order, text, firstPass, passDeferred);
        if passDeferred != {} {
          StuckRefutesLayering(types, order, passDeferred);
        }
        ok, deferred := false, passDeferred;
        return;
      }
      ResolveStep(types, pending, finished, order, text, firstPass, passDeferred, emitted, finishedAfter, passText);
      pending, finished, order, text := passDeferred, finishedAfter, order + emitted, text + passText;
      firstPass := false;
    }
    OrderGivesLayering(types, order);
    if !firstPass {
      assert order[0] in ScheduledNames(types);
    }
  }

  /** The structure section with the evidently intended stopping rule: a
      pass that finishes nothing is a cycle only if it deferred something. */
  method ResolveStructuresFixed(types: TypeMap) returns (ok: bool, order: seq<QName>, deferred: set<QName>, text: string)
    requires ReferencesResolve(types)
    ensures Distinct(order) && AllSchedulable(types, order) && ReadyInTurn(types, order, {})
    ensures text == Blocks(types, order)
    ensures AliasesEmitted(types, Elems(order))
    ensures ok ==> Elems(order) == ScheduledNames(types) && deferred == {}
    ensures !ok ==> deferred == ScheduledNames(types) - Elems(order) && deferred != {}
    ensures !ok ==> forall d :: d in deferred ==> WaitsOn(types, d, Elems(order))
    ensures ok <==> HasLayering(types)
  {
    var pending := types.Keys;
    var finished: set<QName> := {};
    ghost var firstPass := true;
    ok, order, deferred, text := true, [], {}, "";
    ResolveStart(types);
    while pending != {}
      decreases |pending|
      invariant ResolveInvariant(types, pending, finished, order, text, firstPass)
      invariant ok && deferred == {}
    {
      var passDeferred, emitted, finishedAfter, processedSome, passText := RunPass(types, pending, finished);
      if !processedSome && passDeferred != {} {
        ResolveStuck(types, pending, finished, order, text, firstPass, passDeferred);
        StuckRefutesLayering(types, order, passDeferred);
        ok, deferred := false, passDeferred;
        return;
      }
      ResolveStep(types, pending, finished, order, text, firstPass, passDeferred, emitted, finishedAfter, passText);
      if !processedSome {
        // Nothing was deferred and nothing emitted: every pending name was
        // dropped, so nothing schedulable is left.
        pending, finished, order, text := {}, finishedAfter, order + emitted, text + passText;
      } else {
        pending, finished, order, text := passDeferred, finishedAfter, order + emitted, text + passText;
      }
      firstPass := false;
    }
    OrderGivesLayering(types, order);
  }
}
