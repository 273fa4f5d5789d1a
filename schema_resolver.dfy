/**
  Resolving a composed model of the definitions table into one property map
  (`findDefinition` and `getProperties`).

  `getProperties` keeps a stack of composed models, starting with the one to
  resolve. It pops one, walks its `allOf` parents in order, `putAll`s the
  properties of every concrete parent and of every parent reference it can
  resolve, and pushes every inline composed parent for later. Because the
  stack is last-in first-out, the pushed parents are handled after the
  current model's other parents and in reverse declaration order, each one
  with all of its own nested parents before the next. `Stream` states that
  order as a recursive description of the entries that are put, and
  `Merged` the map they produce.
*/
module SchemaResolver {
  import opened JavaLang
  import opened Swagger

  /** `findDefinition`: the model a simple reference names, if the table has one. */
  function FindDefinition(defs: Definitions, simpleRef: string): (m: Option<Model>)
    ensures m.Some? <==> defs.Some? && simpleRef in defs.value
    ensures m.Some? ==> m.value == defs.value[simpleRef]
  {
    match defs
    case None => None
    case Some(table) => if simpleRef in table then Some(table[simpleRef]) else None
  }

  // ---------------------------------------------------------------- putAll

  /** The set of names in a property map. */
  function KeySet(props: PropertyMap): (ks: set<string>)
    ensures forall i :: 0 <= i < |props| ==> props[i].key in ks
    ensures forall k :: k in ks ==> exists i :: 0 <= i < |props| && props[i].key == k
  {
    set i | 0 <= i < |props| :: props[i].key
  }

  /** `acc.putAll(props)`, entry by entry. */
  function PutAll(acc: map<string, Property>, props: PropertyMap): (r: map<string, Property>)
    ensures r.Keys == acc.Keys + KeySet(props)
    decreases |props|
  {
    if props == [] then acc
    else
      var last := props[|props| - 1];
      KeySetLast(props);
      PutAll(acc, props[..|props| - 1])[last.key := last.value]
  }

  /** The names of a property map are those before its last entry and the last one's. */
  lemma KeySetLast(props: PropertyMap)
    requires props != []
    ensures KeySet(props) == KeySet(props[..|props| - 1]) + {props[|props| - 1].key}
  {
    var init := props[..|props| - 1];
    forall k | k in KeySet(props)
      ensures k in KeySet(init) + {props[|props| - 1].key}
    {
      var i :| 0 <= i < |props| && props[i].key == k;
      if i < |init| {
        assert init[i].key == k;
      }
    }
    forall k | k in KeySet(init)
      ensures k in KeySet(props)
    {
      var i :| 0 <= i < |init| && init[i].key == k;
      assert props[i].key == k;
    }
  }

  /** The entry for `k` that a sequence of puts leaves behind: the last one. */
  lemma {:induction false} PutAllLastWins(acc: map<string, Property>, props: PropertyMap, i: nat)
    requires i < |props|
    requires forall j :: i < j < |props| ==> props[j].key != props[i].key
    ensures PutAll(acc, props)[props[i].key] == props[i].value
    decreases |props|
  {
    if i < |props| - 1 {
      PutAllLastWins(acc, props[..|props| - 1], i);
    }
  }

  /** A name that no entry mentions keeps its old value. */
  lemma {:induction false} PutAllKeepsOthers(acc: map<string, Property>, props: PropertyMap, k: string)
    requires k in acc && k !in KeySet(props)
    ensures PutAll(acc, props)[k] == acc[k]
    decreases |props|
  {
    if props != [] {
      PutAllKeepsOthers(acc, props[..|props| - 1], k);
    }
  }

  lemma {:induction false} PutAllConcat(acc: map<string, Property>, a: PropertyMap, b: PropertyMap)
    ensures PutAll(acc, a + b) == PutAll(PutAll(acc, a), b)
    decreases |b|
  {
    if b == [] {
      assert a + b == a;
    } else {
      var b' := b[..|b| - 1];
      assert (a + b)[..|a + b| - 1] == a + b';
      PutAllConcat(acc, a, b');
    }
  }

  // ---------------------------------------------------------------- the merge order

  /**
    What one parent of a composed model hands to `putAll`: the properties of
    a concrete model, or of the model a reference names. A referenced
    composed model is not expanded: only its own `getProperties()` counts.
    A parent with null properties, an unresolvable reference, an inline
    composed parent (pushed instead) or any other kind of model adds nothing.
  */
  function Contribution(defs: Definitions, parent: Model): MaybeProps
  {
    match parent
    case ModelImpl(props) => props
    case RefModel(name, _) =>
      (match FindDefinition(defs, name)
       case None => NullProps
       case Some(m) => m.properties)
    case ComposedModel(_, _) => NullProps
    case OtherModel(_) => NullProps
  }

  /** The entries the direct parents `cs` put, in declaration order. */
  function DirectEntries(defs: Definitions, cs: seq<Model>): PropertyMap
    decreases |cs|
  {
    if cs == [] then []
    else
      var last := cs[|cs| - 1];
      DirectEntries(defs, cs[..|cs| - 1]) + (match Contribution(defs, last) case Props(p) => p case NullProps => [])
  }

  /** The inline composed parents among `cs`, in declaration (push) order. */
  function ComposedOf(cs: seq<Model>): (r: seq<Model>)
    ensures forall i :: 0 <= i < |r| ==> r[i].ComposedModel? && r[i] in cs
    decreases |cs|
  {
    if cs == [] then []
    else
      var last := cs[|cs| - 1];
      ComposedOf(cs[..|cs| - 1]) + (if last.ComposedModel? then [last] else [])
  }

  /**
    Every entry put while merging the composed model `m`: first those of its
    direct parents, then, last declared first, everything its inline
    composed parents put.
  */
  function Stream(defs: Definitions, m: Model): PropertyMap
    requires m.ComposedModel?
    decreases m, 1
  {
    DirectEntries(defs, m.allOf) + NestedStream(defs, m.allOf)
  }

  /** What the inline composed parents among `cs` put, the last-declared one first. */
  function NestedStream(defs: Definitions, cs: seq<Model>): PropertyMap
    decreases cs, 0
  {
    if cs == [] then []
    else
      var last := cs[|cs| - 1];
      (if last.ComposedModel? then Stream(defs, last) else []) + NestedStream(defs, cs[..|cs| - 1])
  }

  /** The map `getProperties` returns for the composed model `m`. */
  function Merged(defs: Definitions, m: Model): map<string, Property>
    requires m.ComposedModel?
  {
    PutAll(map[], Stream(defs, m))
  }

  // ---------------------------------------------------------------- the stack

  predicate AllComposed(st: seq<Model>)
  {
    forall i :: 0 <= i < |st| ==> st[i].ComposedModel?
  }

  /** Everything still to be put for a stack whose top is its last element. */
  function StackStream(defs: Definitions, st: seq<Model>): PropertyMap
    requires AllComposed(st)
    decreases |st|
  {
    if st == [] then [] else Stream(defs, st[|st| - 1]) + StackStream(defs, st[..|st| - 1])
  }

  /** How many composed models the stack will still pop for `m`, `m` included. */
  function NodeCount(m: Model): nat
    requires m.ComposedModel?
    decreases m, 1
  {
    1 + ChildrenCount(m.allOf)
  }

  function ChildrenCount(cs: seq<Model>): nat
    decreases cs, 0
  {
    if cs == [] then 0
    else
      var last := cs[|cs| - 1];
      ChildrenCount(cs[..|cs| - 1]) + (if last.ComposedModel? then NodeCount(last) else 0)
  }

  function StackCount(st: seq<Model>): nat
    requires AllComposed(st)
    decreases |st|
  {
    if st == [] then 0 else NodeCount(st[|st| - 1]) + StackCount(st[..|st| - 1])
  }

  lemma {:induction false} StackAppend(defs: Definitions, a: seq<Model>, b: seq<Model>)
    requires AllComposed(a) && AllComposed(b)
    ensures AllComposed(a + b)
    ensures StackStream(defs, a + b) == StackStream(defs, b) + StackStream(defs, a)
    ensures StackCount(a + b) == StackCount(b) + StackCount(a)
    decreases |b|
  {
    AllComposedConcat(a, b);
    if b == [] {
      assert a + b == a;
    } else {
      var b', top := b[..|b| - 1], b[|b| - 1];
      assert (a + b)[..|a + b| - 1] == a + b';
      assert (a + b)[|a + b| - 1] == top;
      StackAppend(defs, a, b');
      assert StackStream(defs, a + b) == Stream(defs, top) + StackStream(defs, a + b');
      assert StackStream(defs, b) == Stream(defs, top) + StackStream(defs, b');
      assert StackCount(a + b) == NodeCount(top) + StackCount(a + b');
    }
  }

  lemma AllComposedConcat(a: seq<Model>, b: seq<Model>)
    requires AllComposed(a) && AllComposed(b)
    ensures AllComposed(a + b)
  {
    forall i | |a| <= i < |a + b| ensures (a + b)[i].ComposedModel? {
      assert (a + b)[i] == b[i - |a|];
    }
  }

  /** Pushing the composed parents in declaration order makes the stack put what `NestedStream` says. */
  lemma {:induction false} NestedIsStack(defs: Definitions, cs: seq<Model>)
    ensures AllComposed(ComposedOf(cs))
    ensures NestedStream(defs, cs) == StackStream(defs, ComposedOf(cs))
    ensures ChildrenCount(cs) == StackCount(ComposedOf(cs))
    decreases |cs|
  {
    if cs != [] {
      var init, last := cs[..|cs| - 1], cs[|cs| - 1];
      NestedIsStack(defs, init);
      if last.ComposedModel? {
        StackAppend(defs, ComposedOf(init), [last]);
        assert [last][..0] == [];
      } else {
        assert ComposedOf(cs) == ComposedOf(init);
      }
    }
  }

  /** One pop: the popped model's direct puts, then the stack with its composed parents pushed. */
  lemma PopStep(defs: Definitions, before: seq<Model>, acc: map<string, Property>)
    requires before != [] && AllComposed(before)
    ensures var rest, model := before[..|before| - 1], before[|before| - 1];
      && AllComposed(rest + ComposedOf(model.allOf))
      && PutAll(PutAll(acc, DirectEntries(defs, model.allOf)), StackStream(defs, rest + ComposedOf(model.allOf)))
         == PutAll(acc, StackStream(defs, before))
      && StackCount(rest + ComposedOf(model.allOf)) < StackCount(before)
  {
    var rest, model := before[..|before| - 1], before[|before| - 1];
    assert before == rest + [model];
    var children := model.allOf;
    NestedIsStack(defs, children);
    StackAppend(defs, rest, ComposedOf(children));
    StackAppend(defs, rest, [model]);
    PopStream(defs, rest, model, acc);
  }

  lemma PopStream(defs: Definitions, rest: seq<Model>, model: Model, acc: map<string, Property>)
    requires model.ComposedModel? && AllComposed(rest) && AllComposed(rest + [model])
    ensures PutAll(PutAll(acc, DirectEntries(defs, model.allOf)), NestedStream(defs, model.allOf) + StackStream(defs, rest))
         == PutAll(acc, StackStream(defs, rest + [model]))
  {
    var children := model.allOf;
    var direct, nested, below := DirectEntries(defs, children), NestedStream(defs, children), StackStream(defs, rest);
    var x := nested + below;
    var y := StackStream(defs, rest + [model]);
    assert (rest + [model])[..|rest|] == rest;
    assert y == Stream(defs, model) + below;
    assert Stream(defs, model) == direct + nested;
    assert y == direct + x;
    PutAllConcat(acc, direct, x);
  }

  // ---------------------------------------------------------------- what the merge promises

  lemma KeySetConcat(a: PropertyMap, b: PropertyMap)
    ensures KeySet(a + b) == KeySet(a) + KeySet(b)
  {
    forall k | k in KeySet(a + b)
      ensures k in KeySet(a) + KeySet(b)
    {
      var i :| 0 <= i < |a + b| && (a + b)[i].key == k;
      if i >= |a| {
        assert b[i - |a|].key == k;
      }
    }
    forall k | k in KeySet(b)
      ensures k in KeySet(a + b)
    {
      var i :| 0 <= i < |b| && b[i].key == k;
      assert (a + b)[|a| + i].key == k;
    }
    forall k | k in KeySet(a)
      ensures k in KeySet(a + b)
    {
      var i :| 0 <= i < |a| && a[i].key == k;
      assert (a + b)[i].key == k;
    }
  }

  /** `putAll` onto a map is the map overridden by the entries put onto an empty one. */
  lemma {:induction false} PutAllOverride(acc: map<string, Property>, props: PropertyMap)
    ensures PutAll(acc, props) == acc + PutAll(map[], props)
    decreases |props|
  {
    if props != [] {
      var last := props[|props| - 1];
      PutAllOverride(acc, props[..|props| - 1]);
      assert PutAll(acc, props) == (acc + PutAll(map[], props[..|props| - 1]))[last.key := last.value];
    }
  }

  /** Every value in the result of `putAll` is an old value or the value of some entry put. */
  lemma {:induction false} PutAllValueOrigin(acc: map<string, Property>, props: PropertyMap, k: string)
    requires k in PutAll(acc, props)
    ensures (k in acc && PutAll(acc, props)[k] == acc[k]) ||
            exists i :: 0 <= i < |props| && props[i] == Entry(k, PutAll(acc, props)[k])
    decreases |props|
  {
    if props != [] {
      var init, last := props[..|props| - 1], props[|props| - 1];
      if last.key != k {
        PutAllValueOrigin(acc, init, k);
        if !(k in acc && PutAll(acc, props)[k] == acc[k]) {
          var i :| 0 <= i < |init| && init[i] == Entry(k, PutAll(acc, init)[k]);
          assert props[i] == init[i];
        }
      } else {
        assert props[|props| - 1] == Entry(k, PutAll(acc, props)[k]);
      }
    }
  }

  /** The parent `c` hands `k` to `putAll` itself (a concrete or a resolved referenced parent). */
  predicate DirectlySupplies(defs: Definitions, c: Model, k: string)
  {
    Contribution(defs, c).Props? && k in KeySet(Contribution(defs, c).entries)
  }

  /**
    Some model of the inline composition tree below the composed model `m`
    has a parent that hands `k` to `putAll`.
  */
  predicate Supplies(defs: Definitions, m: Model, k: string)
    requires m.ComposedModel?
    decreases m, 1
  {
    SuppliedBy(defs, m.allOf, k)
  }

  predicate SuppliedBy(defs: Definitions, cs: seq<Model>, k: string)
    decreases cs, 0
  {
    exists i :: 0 <= i < |cs| && (DirectlySupplies(defs, cs[i], k) || (cs[i].ComposedModel? && Supplies(defs, cs[i], k)))
  }

  lemma {:induction false} DirectKeys(defs: Definitions, cs: seq<Model>, k: string)
    ensures k in KeySet(DirectEntries(defs, cs)) <==> exists i :: 0 <= i < |cs| && DirectlySupplies(defs, cs[i], k)
    decreases |cs|
  {
    if cs != [] {
      var init, last := cs[..|cs| - 1], cs[|cs| - 1];
      DirectKeys(defs, init, k);
      assert DirectEntries(defs, cs) == DirectEntries(defs, init) + Entries(defs, last);
      KeySetConcat(DirectEntries(defs, init), Entries(defs, last));
      assert k in KeySet(Entries(defs, last)) <==> DirectlySupplies(defs, last, k);
      DirectSplit(defs, cs, k);
    }
  }

  /** Some parent among `cs` supplies `k` directly iff one before the last does or the last does. */
  lemma DirectSplit(defs: Definitions, cs: seq<Model>, k: string)
    requires cs != []
    ensures var init := cs[..|cs| - 1];
      (exists i :: 0 <= i < |cs| && DirectlySupplies(defs, cs[i], k)) <==>
      (exists i :: 0 <= i < |init| && DirectlySupplies(defs, init[i], k)) || DirectlySupplies(defs, cs[|cs| - 1], k)
  {
    var init := cs[..|cs| - 1];
    if i :| 0 <= i < |init| && DirectlySupplies(defs, init[i], k) {
      assert cs[i] == init[i];
    }
    if i :| 0 <= i < |cs| && DirectlySupplies(defs, cs[i], k) {
      if i < |init| {
        assert init[i] == cs[i];
      }
    }
  }

  lemma {:induction false} StreamKeys(defs: Definitions, m: Model, k: string)
    requires m.ComposedModel?
    ensures k in KeySet(Stream(defs, m)) <==> Supplies(defs, m, k)
    decreases m, 1
  {
    DirectKeys(defs, m.allOf, k);
    NestedKeys(defs, m.allOf, k);
    KeySetConcat(DirectEntries(defs, m.allOf), NestedStream(defs, m.allOf));
  }

  /** The composed model `c` has, somewhere below it, a parent that supplies `k`. */
  predicate NestedSupplies(defs: Definitions, c: Model, k: string)
  {
    c.ComposedModel? && Supplies(defs, c, k)
  }

  lemma {:induction false} NestedKeys(defs: Definitions, cs: seq<Model>, k: string)
    ensures k in KeySet(NestedStream(defs, cs)) <==> exists i :: 0 <= i < |cs| && NestedSupplies(defs, cs[i], k)
    decreases cs, 0
  {
    if cs != [] {
      var init, last := cs[..|cs| - 1], cs[|cs| - 1];
      NestedKeys(defs, init, k);
      var own := if last.ComposedModel? then Stream(defs, last) else [];
      assert NestedStream(defs, cs) == own + NestedStream(defs, init);
      KeySetConcat(own, NestedStream(defs, init));
      if last.ComposedModel? {
        StreamKeys(defs, last, k);
      }
      assert k in KeySet(own) <==> NestedSupplies(defs, last, k);
      NestedSplit(defs, cs, k);
    }
  }

  /** Some composed parent among `cs` supplies `k` iff one before the last does or the last does. */
  lemma NestedSplit(defs: Definitions, cs: seq<Model>, k: string)
    requires cs != []
    ensures var init := cs[..|cs| - 1];
      (exists i :: 0 <= i < |cs| && NestedSupplies(defs, cs[i], k)) <==>
      (exists i :: 0 <= i < |init| && NestedSupplies(defs, init[i], k)) || NestedSupplies(defs, cs[|cs| - 1], k)
  {
    var init := cs[..|cs| - 1];
    if i :| 0 <= i < |init| && NestedSupplies(defs, init[i], k) {
      assert cs[i] == init[i];
    }
    if i :| 0 <= i < |cs| && NestedSupplies(defs, cs[i], k) {
      if i < |init| {
        assert init[i] == cs[i];
      }
    }
  }

  /**
    The merged map holds exactly the names that some concrete or resolvable
    referenced parent anywhere in the inline composition tree supplies.
  */
  lemma MergedKeys(defs: Definitions, m: Model, k: string)
    requires m.ComposedModel?
    ensures k in Merged(defs, m) <==> Supplies(defs, m, k)
  {
    StreamKeys(defs, m, k);
  }

  /** Every merged value is the value some supplied entry carries. */
  lemma MergedValueOrigin(defs: Definitions, m: Model, k: string)
    requires m.ComposedModel? && k in Merged(defs, m)
    ensures exists i :: 0 <= i < |Stream(defs, m)| && Stream(defs, m)[i] == Entry(k, Merged(defs, m)[k])
  {
    PutAllValueOrigin(map[], Stream(defs, m), k);
  }

  /** The map the inline composed parents among `cs` produce on their own. */
  function NestedMerged(defs: Definitions, cs: seq<Model>): map<string, Property>
  {
    PutAll(map[], NestedStream(defs, cs))
  }

  /**
    Which write wins, as map overriding (`+` keeps the right-hand value):
    the nested composed parents override the direct parents, and, because
    the stack pops the last-pushed parent first, an earlier-declared
    composed parent overrides a later-declared one.
  */
  lemma MergedLayers(defs: Definitions, m: Model)
    requires m.ComposedModel?
    ensures Merged(defs, m) == PutAll(map[], DirectEntries(defs, m.allOf)) + NestedMerged(defs, m.allOf)
    ensures m.allOf != [] && m.allOf[|m.allOf| - 1].ComposedModel? ==>
      var cs := m.allOf;
      NestedMerged(defs, cs) == Merged(defs, cs[|cs| - 1]) + NestedMerged(defs, cs[..|cs| - 1])
  {
    var cs := m.allOf;
    PutAllConcat(map[], DirectEntries(defs, cs), NestedStream(defs, cs));
    PutAllOverride(PutAll(map[], DirectEntries(defs, cs)), NestedStream(defs, cs));
    if cs != [] && cs[|cs| - 1].ComposedModel? {
      var last := cs[|cs| - 1];
      PutAllConcat(map[], Stream(defs, last), NestedStream(defs, cs[..|cs| - 1]));
      PutAllOverride(Merged(defs, last), NestedStream(defs, cs[..|cs| - 1]));
    }
  }

  /** Among the direct parents, a later one overrides an earlier one. */
  lemma DirectLayers(defs: Definitions, cs: seq<Model>)
    requires cs != []
    ensures PutAll(map[], DirectEntries(defs, cs)) ==
      PutAll(map[], DirectEntries(defs, cs[..|cs| - 1])) + PutAll(map[], Entries(defs, cs[|cs| - 1]))
  {
    var init := cs[..|cs| - 1];
    PutAllConcat(map[], DirectEntries(defs, init), Entries(defs, cs[|cs| - 1]));
    PutAllOverride(PutAll(map[], DirectEntries(defs, init)), Entries(defs, cs[|cs| - 1]));
  }

  lemma {:induction false} DirectEntriesConcat(defs: Definitions, a: seq<Model>, b: seq<Model>)
    ensures DirectEntries(defs, a + b) == DirectEntries(defs, a) + DirectEntries(defs, b)
    decreases |b|
  {
    if b == [] {
      assert a + b == a;
    } else {
      var b' := b[..|b| - 1];
      assert (a + b)[..|a + b| - 1] == a + b';
      DirectEntriesConcat(defs, a, b');
    }
  }

  lemma {:induction false} NestedStreamConcat(defs: Definitions, a: seq<Model>, b: seq<Model>)
    ensures NestedStream(defs, a + b) == NestedStream(defs, b) + NestedStream(defs, a)
    decreases |b|
  {
    if b == [] {
      assert a + b == a;
    } else {
      var b' := b[..|b| - 1];
      assert (a + b)[..|a + b| - 1] == a + b';
      NestedStreamConcat(defs, a, b');
    }
  }

  /**
    A parent that supplies nothing (a concrete parent with null properties,
    a reference the table cannot resolve or whose model has null properties,
    or a model of another kind) can be dropped without changing the result.
  */
  lemma SkippedParentIgnored(defs: Definitions, a: seq<Model>, c: Model, b: seq<Model>, props: MaybeProps)
    requires Contribution(defs, c).NullProps? && !c.ComposedModel?
    ensures Merged(defs, ComposedModel(a + [c] + b, props)) == Merged(defs, ComposedModel(a + b, props))
  {
    DirectEntriesConcat(defs, a + [c], b);
    DirectEntriesConcat(defs, a, [c]);
    DirectEntriesConcat(defs, a, b);
    NestedStreamConcat(defs, a + [c], b);
    NestedStreamConcat(defs, a, [c]);
    NestedStreamConcat(defs, a, b);
    assert [c][..0] == [];
    assert DirectEntries(defs, [c]) == [];
    assert NestedStream(defs, [c]) == [];
    assert DirectEntries(defs, a) + [] == DirectEntries(defs, a);
    assert [] + NestedStream(defs, a) == NestedStream(defs, a);
  }

  /** The entries one parent puts. */
  function Entries(defs: Definitions, parent: Model): PropertyMap
  {
    match Contribution(defs, parent) case Props(p) => p case NullProps => []
  }

  /** What parent `j` of `cs` adds to the result of the inner loop of `getProperties`. */
  lemma DirectPrefix(defs: Definitions, result0: map<string, Property>, cs: seq<Model>, j: nat)
    requires j < |cs|
    ensures PutAll(result0, DirectEntries(defs, cs[..j + 1]))
         == PutAll(PutAll(result0, DirectEntries(defs, cs[..j])), Entries(defs, cs[j]))
  {
    assert cs[..j + 1][..j] == cs[..j];
    assert DirectEntries(defs, cs[..j + 1]) == DirectEntries(defs, cs[..j]) + Entries(defs, cs[j]);
    PutAllConcat(result0, DirectEntries(defs, cs[..j]), Entries(defs, cs[j]));
  }

  /** What parent `j` of `cs` adds to the stack of the inner loop of `getProperties`. */
  lemma ComposedPrefix(stack0: seq<Model>, cs: seq<Model>, j: nat)
    requires j < |cs|
    ensures stack0 + ComposedOf(cs[..j + 1])
         == stack0 + ComposedOf(cs[..j]) + (if cs[j].ComposedModel? then [cs[j]] else [])
  {
    assert cs[..j + 1][..j] == cs[..j];
    assert ComposedOf(cs[..j + 1]) == ComposedOf(cs[..j]) + (if cs[j].ComposedModel? then [cs[j]] else []);
  }

  /**
    The body of the inner loop of `getProperties` for one `allOf` parent: a
    concrete parent's properties go straight into the result, a reference
    is resolved through the definitions table, a composed parent is pushed
    onto the stack, and anything else is skipped.
  */
  method PutParent(defs: Definitions, child: Model, result0: map<string, Property>, stack0: seq<Model>)
    returns (result: map<string, Property>, stack: seq<Model>)
    ensures result == PutAll(result0, Entries(defs, child))
    ensures stack == stack0 + (if child.ComposedModel? then [child] else [])
  {
    result, stack := result0, stack0;
    if child.ModelImpl? {
      if child.properties.Props? {
        result := PutAll(result, child.properties.entries);
      }
    } else if child.ComposedModel? {
      stack := stack + [child];
    } else if child.RefModel? {
      var m := FindDefinition(defs, child.simpleRef);
      if m.Some? && m.value.properties.Props? {
        result := PutAll(result, m.value.properties.entries);
      }
    }
  }

  /** The inner loop of `getProperties` over the `allOf` parents of one popped model. */
  method PutParents(defs: Definitions, children: seq<Model>, result0: map<string, Property>, stack0: seq<Model>)
    returns (result: map<string, Property>, stack: seq<Model>)
    ensures result == PutAll(result0, DirectEntries(defs, children))
    ensures stack == stack0 + ComposedOf(children)
  {
    result, stack := result0, stack0;
    assert children[..0] == [];
    for j := 0 to |children|
      invariant result == PutAll(result0, DirectEntries(defs, children[..j]))
      invariant stack == stack0 + ComposedOf(children[..j])
    {
      result, stack := PutParent(defs, children[j], result, stack);
      DirectPrefix(defs, result0, children, j);
      ComposedPrefix(stack0, children, j);
    }
    assert children[..|children|] == children;
  }

  /**
    `getProperties`: the do-while loop over the stack of composed models.
    The stack is non-empty on entry, so a while loop runs the same steps.
    The loop ends because inline composition is a finite tree: every pop
    replaces one composed model by its inline composed parents.
  */
  method GetProperties(defs: Definitions, parent: Model) returns (result: map<string, Property>)
    requires parent.ComposedModel?
    ensures result == Merged(defs, parent)
  {
    result := map[];
    var stack: seq<Model> := [parent];
    assert [parent][..0] == [];
    assert StackStream(defs, stack) == Stream(defs, parent) + [] == Stream(defs, parent);
    while stack != []
      invariant AllComposed(stack)
      invariant PutAll(result, StackStream(defs, stack)) == Merged(defs, parent)
      decreases StackCount(stack)
    {
      ghost var before, result0 := stack, result;
      var model := stack[|stack| - 1];
      stack := stack[..|stack| - 1];
      result, stack := PutParents(defs, model.allOf, result, stack);
      PopStep(defs, before, result0);
    }
  }
}
