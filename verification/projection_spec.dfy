/**
 The projection specification container (`ProjectionSpec`): the aliases,
 attributes and columns a projection expression declares, the projection
 tree, the transform symbol table, and the views the printers read from it
 — the sort order of the rows, the column labels and the column
 alignments.
 */
module ProjectionSpec {
  import opened Wrappers
  import opened ProjectionTree
  import opened ProjectionSort

  /** A parsed key: its components, as text. */
  type Key = seq<string>

  /** A transform symbol table: function name to the transform it names. */
  type Symbols = map<string, string>

  /** `_Column(key, attribute)`. */
  datatype Column = Column(key: Key, attribute: Attribute)

  /** `empty` is the projector's empty node; `name` is the projection
      name. */
  datatype Spec = Spec(aliases: map<string, Key>, attributes: map<string, string>,
                       columns: seq<Column>, tree: Option<Node>, symbols: Option<Symbols>,
                       name: Option<string>, empty: Option<Node>)

  /** Python truthiness of an optional dictionary. */
  predicate Truthy(m: Option<Symbols>) {
    m.Some? && |m.value| > 0
  }

  function DefaultsRoot(tree: Option<Node>): (r: Option<Node>)
    ensures r.Some? <==> tree.Some?
    ensures tree.Some? ==> r.value == DefaultsTree(tree.value)
    ensures tree.Some? ==> Preorder(r.value) == MapReset(Preorder(tree.value))
  {
    if tree.Some? then DefaultsPreorder(tree.value); Some(DefaultsTree(tree.value)) else None
  }

  /** `Defaults()`: every node becomes a default node and the columns are
      dropped; nothing else changes. */
  function Defaults(s: Spec): (r: Spec)
    ensures r.columns == []
    ensures r.tree.Some? <==> s.tree.Some?
    ensures s.tree.Some? ==> Preorder(r.tree.value) == MapReset(Preorder(s.tree.value))
    ensures r.(columns := s.columns, tree := s.tree) == s
  {
    s.(tree := DefaultsRoot(s.tree), columns := [])
  }

  /** `ProjectionSpec(defaults, symbols)`. With defaults, the new spec
      starts from a default copy of their tree, their aliases, and their
      symbols updated with the caller's (an empty table counts as none);
      without, it has no tree and exactly the caller's symbols. */
  function New(defaults: Option<Spec>, symbols: Option<Symbols>): (s: Spec)
    ensures s.attributes == map[] && s.columns == [] && s.name.None? && s.empty.None?
    ensures defaults.None? ==> s.aliases == map[] && s.tree.None? && s.symbols == symbols
    ensures defaults.Some? ==>
              && s.aliases == defaults.value.aliases
              && s.tree == DefaultsRoot(defaults.value.tree)
              && s.symbols.Some?
              && (forall k :: k in s.symbols.value <==>
                    (Truthy(defaults.value.symbols) && k in defaults.value.symbols.value) ||
                    (Truthy(symbols) && k in symbols.value))
              && (forall k :: Truthy(symbols) && k in symbols.value ==> s.symbols.value[k] == symbols.value[k])
              && (forall k ::
                    (Truthy(defaults.value.symbols) && k in defaults.value.symbols.value &&
                     !(Truthy(symbols) && k in symbols.value)) ==>
                    s.symbols.value[k] == defaults.value.symbols.value[k])
  {
    if defaults.None? then Spec(map[], map[], [], None, symbols, None, None)
    else
      var d := defaults.value;
      var merged :=
        if Truthy(d.symbols) then (if Truthy(symbols) then d.symbols.value + symbols.value else d.symbols.value)
        else (if Truthy(symbols) then symbols.value else map[]);
      Defaults(Spec(d.aliases, map[], [], d.tree, Some(merged), None, None))
  }

  /** `AddAttribute(name, value)`: sets one entry, nothing else changes. */
  function AddAttribute(s: Spec, name: string, value: string): (r: Spec)
    ensures name in r.attributes && r.attributes[name] == value
    ensures forall n :: n != name ==> (n in r.attributes <==> n in s.attributes)
    ensures forall n :: n != name && n in s.attributes ==> r.attributes[n] == s.attributes[n]
    ensures r.(attributes := s.attributes) == s
  {
    s.(attributes := s.attributes[name := value])
  }

  /** `DelAttribute(name)`: drops one entry if present, nothing else
      changes. */
  function DelAttribute(s: Spec, name: string): (r: Spec)
    ensures name !in r.attributes
    ensures forall n :: n != name ==> (n in r.attributes <==> n in s.attributes)
    ensures forall n :: n != name && n in s.attributes ==> r.attributes[n] == s.attributes[n]
    ensures name !in s.attributes ==> r == s
    ensures r.(attributes := s.attributes) == s
  {
    if name in s.attributes then s.(attributes := s.attributes - {name}) else s
  }

  /** Deleting a freshly added attribute restores the spec. */
  lemma DelUndoesAdd(s: Spec, name: string, value: string)
    requires name !in s.attributes
    ensures DelAttribute(AddAttribute(s, name, value), name) == s
  {
    assert AddAttribute(s, name, value).attributes - {name} == s.attributes;
  }

  /** Adding after deleting is adding: the old value does not survive. */
  lemma AddAfterDel(s: Spec, name: string, value: string)
    ensures AddAttribute(DelAttribute(s, name), name, value) == AddAttribute(s, name, value)
  {
    assert DelAttribute(s, name).attributes[name := value] == s.attributes[name := value];
  }

  /** `AddAlias(name, key)`: sets one alias, nothing else changes. */
  function AddAlias(s: Spec, name: string, key: Key): (r: Spec)
    ensures name in r.aliases && r.aliases[name] == key
    ensures forall n :: n != name ==> (n in r.aliases <==> n in s.aliases)
    ensures forall n :: n != name && n in s.aliases ==> r.aliases[n] == s.aliases[n]
    ensures r.(aliases := s.aliases) == s
  {
    s.(aliases := s.aliases[name := key])
  }

  /** `AddKey(key, attribute)`: one more column at the end, the others
      untouched, nothing else changes. */
  function AddKey(s: Spec, key: Key, attribute: Attribute): (r: Spec)
    ensures |r.columns| == |s.columns| + 1
    ensures r.columns[..|s.columns|] == s.columns
    ensures r.columns[|s.columns|] == Column(key, attribute)
    ensures r.(columns := s.columns) == s
  {
    s.(columns := s.columns + [Column(key, attribute)])
  }

  /** `ColumnCount()`. */
  function ColumnCount(s: Spec): nat {
    |s.columns|
  }

  /** Each added key adds one column; a default projection and a fresh
      spec have none. */
  lemma ColumnCounts(s: Spec, key: Key, attribute: Attribute, defaults: Option<Spec>, symbols: Option<Symbols>)
    ensures ColumnCount(AddKey(s, key, attribute)) == ColumnCount(s) + 1
    ensures ColumnCount(Defaults(s)) == 0
    ensures ColumnCount(New(defaults, symbols)) == 0
  {
  }

  /** `_Ordering()`: raises `AttributeError` when there is no tree. */
  function OrderingOf(s: Spec): (r: Result<seq<Attribute>>)
    ensures s.tree.None? <==> r == Err(AttributeError)
    ensures s.tree.Some? ==> r == Ok(Projected(Preorder(s.tree.value)))
  {
    match s.tree
    case None => Err(AttributeError)
    case Some(root) =>
      OrderingIsProjectedPreorder(root);
      Ok(Ordering(root))
  }

  function OrderKey(a: Attribute): SortKey {
    SortKey(a.order, None)
  }

  /** The `(ordinal, order)` prefix of the tuples `Labels` and
      `Alignments` sort. */
  function ColumnKey(a: Attribute): SortKey {
    SortKey(a.ordinal, a.order)
  }

  predicate HasOrder(a: Attribute) {
    a.order.Some?
  }

  function WithOrder(xs: seq<Attribute>): (r: seq<Attribute>)
    ensures |r| <= |xs|
    ensures forall i :: 0 <= i < |r| ==> HasOrder(r[i])
  {
    if |xs| == 0 then []
    else (if HasOrder(xs[0]) then [xs[0]] else []) + WithOrder(xs[1..])
  }

  /** The entries `Order` reads, in the order it reads them. */
  function OrderedEntries(ordering: seq<Attribute>): seq<Attribute> {
    WithOrder(SortBy(ordering, OrderKey))
  }

  /** `Order()`: the column indices (ordinal - 1) of the entries with a
      sort order, by order, or none when no entry has one; an ordered
      entry without an ordinal makes `None - 1` raise `TypeError`. */
  function Order(s: Spec): (r: Result<Option<seq<int>>>)
    ensures s.tree.None? ==> r == Err(AttributeError)
    ensures s.tree.Some? ==>
              var es := OrderedEntries(Ordering(s.tree.value));
              && (r == Err(TypeError) <==> exists i :: 0 <= i < |es| && es[i].ordinal.None?)
              && (r == Ok(None) <==> |es| == 0)
              && (r.Ok? && r.value.Some? ==>
                    |r.value.value| == |es| &&
                    forall i :: 0 <= i < |es| ==> r.value.value[i] == es[i].ordinal.value - 1)
  {
    match s.tree
    case None => Err(AttributeError)
    case Some(root) =>
      var es := OrderedEntries(Ordering(root));
      if exists i :: 0 <= i < |es| && es[i].ordinal.None? then Err(TypeError)
      else
        var idx := seq(|es|, i requires 0 <= i < |es| => es[i].ordinal.value - 1);
        if |idx| == 0 then Ok(None) else Ok(Some(idx))
  }

  /** `attribute.label or ''`. */
  function LabelText(a: Attribute): string {
    if a.heading.Some? then a.heading.value else ""
  }

  /** `Labels()`: one label per projected column in `(ordinal, order)`
      order, or none when every label is empty. */
  function Labels(s: Spec): (r: Result<Option<seq<string>>>)
    ensures s.tree.None? ==> r == Err(AttributeError)
    ensures s.tree.Some? ==>
              var ord := Ordering(s.tree.value);
              var sorted := SortBy(ord, ColumnKey);
              && r.Ok?
              && (r.value.None? <==> forall i :: 0 <= i < |ord| ==> LabelText(ord[i]) == "")
              && (r.value.Some? ==>
                    |r.value.value| == |ord| &&
                    forall i :: 0 <= i < |ord| ==> r.value.value[i] == LabelText(sorted[i]))
  {
    match s.tree
    case None => Err(AttributeError)
    case Some(root) =>
      var ord := Ordering(root);
      var sorted := SortBy(ord, ColumnKey);
      var labels := seq(|sorted|, i requires 0 <= i < |sorted| => LabelText(sorted[i]));
      AllEmptyPermuted(ord, sorted);
      LabelsAllEmpty(sorted, labels);
      if exists i :: 0 <= i < |labels| && labels[i] != "" then Ok(Some(labels)) else Ok(None)
  }

  /** `Alignments()`: one alignment per projected column, in the order of
      `Labels`. */
  function Alignments(s: Spec): (r: Result<seq<Align>>)
    ensures s.tree.None? ==> r == Err(AttributeError)
    ensures s.tree.Some? ==>
              var ord := Ordering(s.tree.value);
              var sorted := SortBy(ord, ColumnKey);
              && r.Ok?
              && |r.value| == |ord|
              && forall i :: 0 <= i < |ord| ==> r.value[i] == sorted[i].align
  {
    match s.tree
    case None => Err(AttributeError)
    case Some(root) =>
      var sorted := SortBy(Ordering(root), ColumnKey);
      Ok(seq(|sorted|, i requires 0 <= i < |sorted| => sorted[i].align))
  }

  lemma LabelsAllEmpty(xs: seq<Attribute>, labels: seq<string>)
    requires |labels| == |xs| && forall i :: 0 <= i < |xs| ==> labels[i] == LabelText(xs[i])
    ensures (exists i :: 0 <= i < |labels| && labels[i] != "") <==>
            !(forall i :: 0 <= i < |xs| ==> LabelText(xs[i]) == "")
  {
    if !(forall i :: 0 <= i < |xs| ==> LabelText(xs[i]) == "") {
      var i :| 0 <= i < |xs| && LabelText(xs[i]) != "";
      assert labels[i] != "";
    }
  }

  /** Whether every label is empty does not depend on the order. */
  lemma AllEmptyPermuted(xs: seq<Attribute>, ys: seq<Attribute>)
    requires multiset(xs) == multiset(ys)
    ensures (forall i :: 0 <= i < |xs| ==> LabelText(xs[i]) == "") <==>
            (forall i :: 0 <= i < |ys| ==> LabelText(ys[i]) == "")
  {
    forall i | 0 <= i < |ys|
      ensures ys[i] in xs
    {
      assert ys[i] in multiset(ys);
    }
    forall i | 0 <= i < |xs|
      ensures xs[i] in ys
    {
      assert xs[i] in multiset(xs);
    }
  }

  lemma {:induction false} WithOrderCount(xs: seq<Attribute>, a: Attribute)
    ensures multiset(WithOrder(xs))[a] == if HasOrder(a) then multiset(xs)[a] else 0
    decreases |xs|
  {
    if |xs| > 0 {
      WithOrderCount(xs[1..], a);
      assert xs == [xs[0]] + xs[1..];
    }
  }

  lemma {:induction false} WithOrderSorted(xs: seq<Attribute>)
    requires Sorted(xs, OrderKey)
    ensures Sorted(WithOrder(xs), OrderKey)
    decreases |xs|
  {
    if |xs| > 0 {
      assert Sorted(xs[1..], OrderKey);
      WithOrderSorted(xs[1..]);
      var r := WithOrder(xs);
      var rest := WithOrder(xs[1..]);
      if HasOrder(xs[0]) {
        forall j | 1 <= j < |r|
          ensures KeyLe(OrderKey(r[0]), OrderKey(r[j]))
        {
          assert r[j] == rest[j - 1];
          WithOrderCount(xs[1..], r[j]);
          assert r[j] in multiset(rest);
          assert r[j] in xs[1..];
        }
      }
    }
  }

  lemma {:induction false} WithOrderKeepsKey(xs: seq<Attribute>, v: int)
    ensures WithKey(WithOrder(xs), OrderKey, SortKey(Some(v), None)) == WithKey(xs, OrderKey, SortKey(Some(v), None))
    decreases |xs|
  {
    if |xs| > 0 {
      WithOrderKeepsKey(xs[1..], v);
      var head := if HasOrder(xs[0]) then [xs[0]] else [];
      assert WithOrder(xs) == head + WithOrder(xs[1..]);
      WithKeyAppend(head, WithOrder(xs[1..]), OrderKey, SortKey(Some(v), None));
    }
  }

  lemma {:induction false} WithKeyAppend<T>(xs: seq<T>, ys: seq<T>, key: T -> SortKey, k: SortKey)
    ensures WithKey(xs + ys, key, k) == WithKey(xs, key, k) + WithKey(ys, key, k)
    decreases |xs|
  {
    if |xs| > 0 {
      assert (xs + ys)[1..] == xs[1..] + ys;
      WithKeyAppend(xs[1..], ys, key, k);
    } else {
      assert xs + ys == ys;
    }
  }

  /** The entries `Order` reads are exactly the ordered entries of the
      projection, by nondecreasing order, and entries with the same order
      keep their depth-first order. */
  lemma OrderedEntriesSpec(ordering: seq<Attribute>)
    ensures var es := OrderedEntries(ordering);
            && (forall i :: 0 <= i < |es| ==> es[i].order.Some?)
            && (forall i, j :: 0 <= i < j < |es| ==> es[i].order.value <= es[j].order.value)
            && multiset(es) == multiset(WithOrder(ordering))
            && (forall v :: WithKey(es, OrderKey, SortKey(Some(v), None)) ==
                             WithKey(ordering, OrderKey, SortKey(Some(v), None)))
  {
    var sorted := SortBy(ordering, OrderKey);
    var es := WithOrder(sorted);
    WithOrderSorted(sorted);
    forall i, j | 0 <= i < j < |es|
      ensures es[i].order.value <= es[j].order.value
    {
      assert KeyLe(OrderKey(es[i]), OrderKey(es[j]));
    }
    forall a
      ensures multiset(es)[a] == multiset(WithOrder(ordering))[a]
    {
      WithOrderCount(sorted, a);
      WithOrderCount(ordering, a);
    }
    forall v
      ensures WithKey(es, OrderKey, SortKey(Some(v), None)) == WithKey(ordering, OrderKey, SortKey(Some(v), None))
    {
      WithOrderKeepsKey(sorted, v);
      SortStable(ordering, OrderKey, SortKey(Some(v), None));
    }
  }

  /** A default projection projects nothing: no sort order, no labels, no
      alignments and no columns. */
  lemma DefaultsProjectNothing(s: Spec)
    requires s.tree.Some?
    ensures Order(Defaults(s)) == Ok(None)
    ensures Labels(Defaults(s)) == Ok(None)
    ensures Alignments(Defaults(s)) == Ok([])
  {
    DefaultsOrderingEmpty(s.tree.value);
  }

  /** `Defaults()` is idempotent. */
  lemma DefaultsTwice(s: Spec)
    ensures Defaults(Defaults(s)) == Defaults(s)
  {
    if s.tree.Some? {
      DefaultsIdempotent(s.tree.value);
    }
  }

  /** A spec built from defaults is already a default projection. */
  lemma NewIsDefault(defaults: Spec, symbols: Option<Symbols>)
    ensures var s := New(Some(defaults), symbols);
            && Defaults(s) == s
            && (defaults.tree.Some? ==>
                  Order(s) == Ok(None) && Labels(s) == Ok(None) && Alignments(s) == Ok([]))
  {
    var s := New(Some(defaults), symbols);
    if defaults.tree.Some? {
      DefaultsIdempotent(defaults.tree.value);
      DefaultsOrderingEmpty(defaults.tree.value);
    }
  }
}
