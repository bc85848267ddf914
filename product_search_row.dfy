/**
 * The product-search row of the WooCommerce extension: one row per product,
 * which for a variable product lets the user pick attribute options, resolves
 * them to a single concrete variation, remembers the variations chosen so far
 * and reports every change to its parent through an `onChange` callback.
 *
 * The pure parts (the attribute matcher, the de-duplication, the selection
 * test and what the row shows) are functions; the component itself is the
 * class `Row`, whose fields are the component state `showForm` and
 * `variations` plus `events`, the log of ids passed to the parent's
 * `onChange`.
 */
module ProductSearchRow {
  import opened Wrappers

  /** One `{ name, option }` pair of a variation. */
  datatype Attribute = Attribute(name: string, option: string)

  /** A concrete variation of a variable product. */
  datatype Variation = Variation(id: int, attributes: seq<Attribute>)

  /** The fields of a product the row looks at; `kind` is the product's `type`. */
  datatype Product = Product(id: int, kind: string, isVariation: bool)

  /** The `value` prop: a single selected id or a list of them. */
  datatype Value = Single(id: int) | Many(ids: seq<int>)

  /** The props the store and the parent supply: the product, the variations
      the store holds for it (`props.variations`), the selection and whether
      the search allows one product only. */
  datatype Props = Props(product: Product, variations: seq<Variation>, value: Value, singular: bool)

  /** `isProductSelected( value, id )`, defined outside this component. */
  type Selector = (Value, int) -> bool

  /** The attribute choices handed to `updateItem`: attribute name to option. */
  type Choices = map<string, string>

  const AnyOption := "any"
  const VariableType := "variable"

  // ---------------------------------------------------------------------------
  // Matching attribute choices against variations

  /** `-1 !== values( attributes ).indexOf( 'any' )`: some choice is the
      "any" sentinel. */
  function HasAnyChoice(choices: Choices): (r: bool)
    ensures r <==> AnyOption in choices.Values
  {
    exists name :: name in choices && choices[name] == AnyOption
  }

  /** `attributes[ a.name ] === a.option`; a name without a choice reads as
      `undefined`, which equals no option. */
  function Agrees(a: Attribute, choices: Choices): (r: bool)
    ensures r <==> (a.name, a.option) in choices.Items
  {
    a.name in choices && choices[a.name] == a.option
  }

  /** The `reduce` over a variation's attributes: a left fold of `&&` that
      starts from `true`. It accepts exactly when every attribute agrees. */
  function AttributesAgree(attrs: seq<Attribute>, choices: Choices): (r: bool)
    ensures r <==> forall i :: 0 <= i < |attrs| ==> Agrees(attrs[i], choices)
  {
    if attrs == [] then true
    else
      var init := attrs[..|attrs| - 1];
      assert forall i :: 0 <= i < |init| ==> init[i] == attrs[i];
      AttributesAgree(init, choices) && Agrees(attrs[|attrs| - 1], choices)
  }

  /** The filter's test: a variation matches exactly when every one of its
      own attributes agrees with the choices; in particular a variation with
      no attributes matches every choice map. */
  function Matches(v: Variation, choices: Choices): (r: bool)
    ensures r <==> forall i :: 0 <= i < |v.attributes| ==> Agrees(v.attributes[i], choices)
    ensures v.attributes == [] ==> r
  {
    AttributesAgree(v.attributes, choices)
  }

  /** Choices under names the variation does not mention play no part: two
      choice maps that agree on the variation's own attribute names give the
      same verdict. */
  lemma {:induction false} UnmentionedChoicesIgnored(v: Variation, c1: Choices, c2: Choices)
    requires forall i :: 0 <= i < |v.attributes| ==>
      var n := v.attributes[i].name;
      (n in c1 <==> n in c2) && (n in c1 ==> c1[n] == c2[n])
    ensures Matches(v, c1) == Matches(v, c2)
  {
    forall i | 0 <= i < |v.attributes|
      ensures Agrees(v.attributes[i], c1) == Agrees(v.attributes[i], c2)
    {
    }
  }

  /** The `filter` of the store's variations by `Matches`, in catalog order. */
  function MatchingVariations(catalog: seq<Variation>, choices: Choices): (r: seq<Variation>)
    ensures |r| <= |catalog|
    ensures forall v :: v in r <==> v in catalog && Matches(v, choices)
  {
    if catalog == [] then []
    else
      var rest := MatchingVariations(catalog[1..], choices);
      if Matches(catalog[0], choices) then [catalog[0]] + rest else rest
  }

  lemma {:induction false} NoMatchesFilterEmpty(catalog: seq<Variation>, choices: Choices)
    requires forall k :: 0 <= k < |catalog| ==> !Matches(catalog[k], choices)
    ensures MatchingVariations(catalog, choices) == []
  {
    if catalog != [] {
      NoMatchesFilterEmpty(catalog[1..], choices);
    }
  }

  /** Position `i` of the catalog matches and no other position does. */
  ghost predicate OnlyMatchAt(catalog: seq<Variation>, choices: Choices, i: int) {
    && 0 <= i < |catalog|
    && Matches(catalog[i], choices)
    && forall j :: 0 <= j < |catalog| && Matches(catalog[j], choices) ==> j == i
  }

  /** The filter has exactly one element iff exactly one catalog position
      matches, and then that element is the one at that position. */
  lemma {:induction false} SingleMatchIff(catalog: seq<Variation>, choices: Choices)
    ensures |MatchingVariations(catalog, choices)| == 1 <==> exists i :: OnlyMatchAt(catalog, choices, i)
    ensures forall i :: OnlyMatchAt(catalog, choices, i) ==> MatchingVariations(catalog, choices) == [catalog[i]]
  {
    if catalog != [] {
      var tail := catalog[1..];
      SingleMatchIff(tail, choices);
      var r := MatchingVariations(catalog, choices);
      var rt := MatchingVariations(tail, choices);
      if Matches(catalog[0], choices) {
        assert r == [catalog[0]] + rt;
        if |r| == 1 {
          assert rt == [];
          forall j | 1 <= j < |catalog| ensures !Matches(catalog[j], choices) {
            assert catalog[j] == tail[j - 1];
            assert catalog[j] in tail;
          }
          assert OnlyMatchAt(catalog, choices, 0);
        }
        forall i | OnlyMatchAt(catalog, choices, i) ensures r == [catalog[i]] {
          assert i == 0;
          forall k | 0 <= k < |tail| ensures !Matches(tail[k], choices) {
            assert tail[k] == catalog[k + 1];
          }
          NoMatchesFilterEmpty(tail, choices);
        }
      } else {
        assert r == rt;
        forall i | OnlyMatchAt(catalog, choices, i) ensures OnlyMatchAt(tail, choices, i - 1) {
          assert i != 0;
          forall j | 0 <= j < |tail| && Matches(tail[j], choices) ensures j == i - 1 {
            assert catalog[j + 1] == tail[j];
          }
        }
        forall i | OnlyMatchAt(tail, choices, i) ensures OnlyMatchAt(catalog, choices, i + 1) {
          forall j | 0 <= j < |catalog| && Matches(catalog[j], choices) ensures j == i + 1 {
            assert j != 0;
            assert tail[j - 1] == catalog[j];
          }
        }
      }
    }
  }

  /** What `updateItem` resolves a choice map to: nothing when some choice is
      "any", the variation when exactly one catalog position matches, and
      nothing when zero or several do. */
  function ResolveChoices(catalog: seq<Variation>, choices: Choices): (r: Option<Variation>)
    ensures r.Some? <==> !HasAnyChoice(choices) && exists i :: OnlyMatchAt(catalog, choices, i)
    ensures forall i :: !HasAnyChoice(choices) && OnlyMatchAt(catalog, choices, i) ==> r == Some(catalog[i])
    ensures r.Some? ==> r.value in catalog && Matches(r.value, choices)
  {
    SingleMatchIff(catalog, choices);
    if HasAnyChoice(choices) then None
    else
      var matching := MatchingVariations(catalog, choices);
      if |matching| == 1 then Some(matching[0]) else None
  }

  // ---------------------------------------------------------------------------
  // Ids, uniqueness and the two list updates

  function Ids(vs: seq<Variation>): seq<int> {
    seq(|vs|, i requires 0 <= i < |vs| => vs[i].id)
  }

  predicate HasId(vs: seq<Variation>, id: int) {
    exists i :: 0 <= i < |vs| && vs[i].id == id
  }

  predicate UniqueIds(vs: seq<Variation>) {
    forall i, j :: 0 <= i < j < |vs| ==> vs[i].id != vs[j].id
  }

  /** lodash `uniqBy( vs, 'id' )`: the first element with each id, in order. */
  function UniqById(vs: seq<Variation>): (r: seq<Variation>)
    ensures UniqueIds(r)
    ensures forall id :: HasId(r, id) <==> HasId(vs, id)
    ensures forall v :: v in r ==> v in vs
  {
    if vs == [] then []
    else
      var kept := UniqById(vs[..|vs| - 1]);
      var last := vs[|vs| - 1];
      assert forall id :: HasId(vs, id) <==> HasId(vs[..|vs| - 1], id) || last.id == id by {
        forall id | HasId(vs, id) && last.id != id ensures HasId(vs[..|vs| - 1], id) {
          var i :| 0 <= i < |vs| && vs[i].id == id;
          assert vs[..|vs| - 1][i].id == id;
        }
        forall id | HasId(vs[..|vs| - 1], id) ensures HasId(vs, id) {
          var i :| 0 <= i < |vs| - 1 && vs[..|vs| - 1][i].id == id;
          assert vs[i].id == id;
        }
      }
      if HasId(kept, last.id) then kept
      else
        assert forall id :: HasId(kept + [last], id) <==> HasId(kept, id) || last.id == id by {
          forall id | HasId(kept + [last], id) && last.id != id ensures HasId(kept, id) {
            var i :| 0 <= i < |kept| + 1 && (kept + [last])[i].id == id;
            assert kept[i].id == id;
          }
          forall id | HasId(kept, id) ensures HasId(kept + [last], id) {
            var i :| 0 <= i < |kept| && kept[i].id == id;
            assert (kept + [last])[i].id == id;
          }
          assert (kept + [last])[|kept|] == last;
        }
        assert forall v :: v in kept + [last] ==> v in kept || v == last;
        kept + [last]
  }

  /** On a list whose ids are already unique, `uniqBy` changes nothing. */
  lemma {:induction false} UniqByIdOfUnique(vs: seq<Variation>)
    requires UniqueIds(vs)
    ensures UniqById(vs) == vs
  {
    if vs != [] {
      var init := vs[..|vs| - 1];
      var last := vs[|vs| - 1];
      UniqByIdOfUnique(init);
      forall i | 0 <= i < |init| ensures init[i].id != last.id {
        assert init[i] == vs[i];
      }
      assert init + [last] == vs;
    }
  }

  /** The state update of a unique match, `uniqBy( [ ...prev, variation ], 'id' )`. */
  function AppendUnique(stored: seq<Variation>, v: Variation): (r: seq<Variation>)
    ensures UniqueIds(r)
    ensures UniqueIds(stored) ==> r == if HasId(stored, v.id) then stored else stored + [v]
  {
    var r := UniqById(stored + [v]);
    if UniqueIds(stored) then
      UniqByIdOfUnique(stored);
      assert (stored + [v])[..|stored|] == stored;
      r
    else r
  }

  /** Adding the same variation twice leaves the list as after the first
      addition: repeating a resolved choice is idempotent on the list. */
  lemma {:induction false} AppendUniqueIdempotent(stored: seq<Variation>, v: Variation)
    requires UniqueIds(stored)
    ensures AppendUnique(AppendUnique(stored, v), v) == AppendUnique(stored, v)
  {
    var once := AppendUnique(stored, v);
    assert HasId(once, v.id) by {
      if HasId(stored, v.id) {
      } else {
        assert once[|stored|].id == v.id;
      }
    }
  }

  /** `filter( vs, item => item.id !== id )`. */
  function WithoutId(vs: seq<Variation>, id: int): (r: seq<Variation>)
    ensures forall v :: v in r <==> v in vs && v.id != id
    ensures |r| <= |vs|
  {
    if vs == [] then []
    else
      var rest := WithoutId(vs[1..], id);
      if vs[0].id != id then [vs[0]] + rest else rest
  }

  /** The filter keeps order: it distributes over concatenation. */
  lemma {:induction false} WithoutIdAppend(a: seq<Variation>, b: seq<Variation>, id: int)
    ensures WithoutId(a + b, id) == WithoutId(a, id) + WithoutId(b, id)
  {
    if a == [] {
      assert a + b == b;
    } else {
      var ab := a + b;
      assert ab[0] == a[0] && ab[1..] == a[1..] + b;
      WithoutIdAppend(a[1..], b, id);
      var restA, restB := WithoutId(a[1..], id), WithoutId(b, id);
      if a[0].id != id {
        calc {
          WithoutId(ab, id);
          [a[0]] + WithoutId(a[1..] + b, id);
          [a[0]] + (restA + restB);
          ([a[0]] + restA) + restB;
          WithoutId(a, id) + restB;
        }
      }
    }
  }

  /** Removing an id that is not stored changes nothing. */
  lemma {:induction false} WithoutAbsentId(vs: seq<Variation>, id: int)
    requires !HasId(vs, id)
    ensures WithoutId(vs, id) == vs
  {
    if vs != [] {
      assert vs[0].id != id;
      forall i | 0 <= i < |vs| - 1 ensures vs[1..][i].id != id {
        assert vs[1..][i] == vs[i + 1];
      }
      WithoutAbsentId(vs[1..], id);
    }
  }

  /** Removing an id twice is removing it once. */
  lemma {:induction false} WithoutIdIdempotent(vs: seq<Variation>, id: int)
    ensures WithoutId(WithoutId(vs, id), id) == WithoutId(vs, id)
  {
    var r := WithoutId(vs, id);
    forall i | 0 <= i < |r| ensures r[i].id != id {
      assert r[i] in r;
    }
    WithoutAbsentId(r, id);
  }

  /** Removing entries keeps the ids unique. */
  lemma {:induction false} WithoutIdKeepsUnique(vs: seq<Variation>, id: int)
    requires UniqueIds(vs)
    ensures UniqueIds(WithoutId(vs, id))
  {
    if vs != [] {
      var tail := vs[1..];
      assert UniqueIds(tail) by {
        forall i, j | 0 <= i < j < |tail| ensures tail[i].id != tail[j].id {
          assert tail[i] == vs[i + 1] && tail[j] == vs[j + 1];
        }
      }
      WithoutIdKeepsUnique(tail, id);
      var rt := WithoutId(tail, id);
      if vs[0].id != id {
        var r := [vs[0]] + rt;
        forall j | 0 < j < |r| ensures r[0].id != r[j].id {
          assert r[j] in rt;
          var k :| 0 <= k < |tail| && tail[k] == r[j];
          assert vs[k + 1] == r[j];
        }
        assert WithoutId(vs, id) == r;
      }
    }
  }

  // ---------------------------------------------------------------------------
  // Selection

  /** `isSelected( id )`: the outside selection test applied to the current
      `value` prop; no other prop takes part. */
  function IsSelected(props: Props, isProductSelected: Selector, id: int): bool {
    isProductSelected(props.value, id)
  }

  /** The `reduce` of `areAnySelected`: a left fold of `||` over the stored
      variations, starting from `start`. It is true exactly when the start
      value is or some stored variation is selected. */
  function AnySelectedFold(start: bool, vs: seq<Variation>, props: Props, isProductSelected: Selector): (r: bool)
    ensures r <==> start || exists i :: 0 <= i < |vs| && IsSelected(props, isProductSelected, vs[i].id)
  {
    if vs == [] then start
    else
      var init := vs[..|vs| - 1];
      assert forall i :: 0 <= i < |init| ==> init[i] == vs[i];
      AnySelectedFold(start, init, props, isProductSelected) || IsSelected(props, isProductSelected, vs[|vs| - 1].id)
  }

  /** What the input column of a row is: a count badge for a variable product
      that is not itself a variation, else a radio button (single selection)
      or a checkbox bound to the row's id. */
  datatype Input = CountBadge(count: nat) | Radio(value: int, checked: bool) | Checkbox(value: int, checked: bool)

  // ---------------------------------------------------------------------------
  // The component

  class Row {
    var showForm: bool
    var variations: seq<Variation>
    /** The ids passed to the parent's `onChange`, oldest first. */
    var events: seq<int>

    ghost predicate Valid()
      reads this
    {
      UniqueIds(variations)
    }

    /** The initial component state. */
    constructor ()
      ensures Valid()
      ensures !showForm && variations == [] && events == []
    {
      showForm := false;
      variations := [];
      events := [];
    }

    /** `areAnySelected`: the product or some stored variation is selected. */
    function AreAnySelected(props: Props, isProductSelected: Selector): (r: bool)
      reads this
      ensures r <==> (|| IsSelected(props, isProductSelected, props.product.id)
                      || exists i :: 0 <= i < |variations| && IsSelected(props, isProductSelected, variations[i].id))
    {
      var start := IsSelected(props, isProductSelected, props.product.id);
      AnySelectedFold(start, variations, props, isProductSelected)
    }

    /** `renderVariations`: `None` when the panel is hidden, else the rows of
        the stored variations (each a variation of the row's product) shown
        above the attribute form. */
    function VariationsPanel(props: Props, isProductSelected: Selector): (r: Option<seq<Product>>)
      reads this
      ensures r.None? <==> (&& !showForm
                            && !IsSelected(props, isProductSelected, props.product.id)
                            && forall i :: 0 <= i < |variations| ==> !IsSelected(props, isProductSelected, variations[i].id))
      ensures r.Some? ==> (&& |r.value| == |variations|
                           && forall i :: 0 <= i < |variations| ==>
                                r.value[i] == Product(variations[i].id, props.product.kind, true))
    {
      if !AreAnySelected(props, isProductSelected) && !showForm then None
      else Some(seq(|variations|, i requires 0 <= i < |variations| reads this =>
                  Product(variations[i].id, props.product.kind, true)))
    }

    /** `renderInputComponent( product )`. */
    function InputComponent(props: Props, isProductSelected: Selector, p: Product): (r: Input)
      reads this
      ensures r.CountBadge? <==> p.kind == VariableType && !p.isVariation
      ensures r.CountBadge? ==> r.count == |variations|
      ensures !r.CountBadge? ==> (&& r.value == p.id
                                  && r.checked == IsSelected(props, isProductSelected, p.id)
                                  && (r.Radio? <==> props.singular))
    {
      if p.kind == VariableType && !p.isVariation then CountBadge(|variations|)
      else if props.singular then Radio(p.id, IsSelected(props, isProductSelected, p.id))
      else Checkbox(p.id, IsSelected(props, isProductSelected, p.id))
    }

    /** `onChange`: the user unticked (or ticked) the row of `id`. The entries
        with that id leave the list, the rest keep their order, and the id is
        reported once. */
    method OnChange(id: int)
      requires Valid()
      modifies this
      ensures Valid()
      ensures variations == WithoutId(old(variations), id)
      ensures events == old(events) + [id]
      ensures showForm == old(showForm)
    {
      WithoutIdKeepsUnique(variations, id);
      variations := WithoutId(variations, id);
      events := events + [id];
    }

    /** `toggleCustomizeForm`: closed opens unconditionally; open closes only
        when nothing is selected; the variations are never touched. */
    method ToggleCustomizeForm(props: Props, isProductSelected: Selector)
      requires Valid()
      modifies this`showForm
      ensures Valid()
      ensures !old(showForm) ==> showForm
      ensures old(showForm) ==> (showForm <==> AreAnySelected(props, isProductSelected))
    {
      if !showForm {
        showForm := true;
      } else if !AreAnySelected(props, isProductSelected) {
        showForm := false;
      }
    }

    /** `updateItem( attributes )`: when the choices resolve to exactly one of
        the store's variations, store it (once per id) and report the product
        id followed by every stored variation id, in list order; otherwise
        change nothing and report nothing. */
    method UpdateItem(props: Props, choices: Choices)
      requires Valid()
      modifies this
      ensures Valid()
      ensures showForm == old(showForm)
      ensures ResolveChoices(props.variations, choices).None? ==>
        variations == old(variations) && events == old(events)
      ensures ResolveChoices(props.variations, choices).Some? ==>
        && variations == AppendUnique(old(variations), ResolveChoices(props.variations, choices).value)
        && events == old(events) + [props.product.id] + Ids(variations)
    {
      if HasAnyChoice(choices) {
        return;
      }
      var matching := MatchingVariations(props.variations, choices);
      if |matching| == 1 {
        var stored := AppendUnique(variations, matching[0]);
        variations := stored;
        events := events + [props.product.id];
        for i := 0 to |stored|
          invariant variations == stored && showForm == old(showForm)
          invariant events == old(events) + [props.product.id] + Ids(variations[..i])
        {
          assert Ids(variations[..i + 1]) == Ids(variations[..i]) + [variations[i].id];
          events := events + [variations[i].id];
        }
        assert variations[..|variations|] == variations;
      }
    }
  }

  // ---------------------------------------------------------------------------
  // Consequences for callers

  /** After a resolved choice the parent hears exactly one event more than
      there are stored variations, the product id first. */
  lemma {:induction false} ResolvedEventCount(stored: seq<Variation>, v: Variation, before: seq<int>, pid: int)
    requires UniqueIds(stored)
    ensures var after := AppendUnique(stored, v);
      var evs := before + [pid] + Ids(after);
      |evs| == |before| + 1 + |after| && evs[|before|] == pid
      && (|after| == |stored| <==> HasId(stored, v.id))
  {
  }

  /** Every row shown in the variations panel is a variation row, so it gets a
      selection control bound to the variation's own id and never a count
      badge. */
  lemma {:induction false} VariationRowsGetControls(row: Row, props: Props, isProductSelected: Selector, i: int)
    requires row.VariationsPanel(props, isProductSelected).Some?
    requires 0 <= i < |row.variations|
    ensures var rows := row.VariationsPanel(props, isProductSelected).value;
      var input := row.InputComponent(props, isProductSelected, rows[i]);
      !input.CountBadge? && input.value == row.variations[i].id
      && input.checked == IsSelected(props, isProductSelected, row.variations[i].id)
  {
  }

  /** A catalog for a variable product 1 whose variations 11 (red) and 12
      (blue) differ in colour. */
  const RedShirt := Variation(11, [Attribute("color", "red")])
  const BlueShirt := Variation(12, [Attribute("color", "blue")])

  lemma {:induction false} RedChoiceResolvesToEleven()
    ensures ResolveChoices([RedShirt, BlueShirt], map["color" := "red"]) == Some(RedShirt)
    ensures ResolveChoices([RedShirt, BlueShirt], map["color" := "green"]) == None
    ensures ResolveChoices([RedShirt, BlueShirt], map["color" := "any"]) == None
  {
    var red := map["color" := "red"];
    var green := map["color" := "green"];
    assert !HasAnyChoice(red) && !HasAnyChoice(green);
    assert Matches(RedShirt, red) && !Matches(BlueShirt, red);
    assert !Matches(RedShirt, green) && !Matches(BlueShirt, green);
    assert OnlyMatchAt([RedShirt, BlueShirt], red, 0);
    var any := map["color" := "any"];
    assert any["color"] == AnyOption;
    assert HasAnyChoice(any);
  }

  /** Choosing red on a new row of product 1 stores variation 11 and
      reports ids 1 then 11. */
  method RedChoiceScenario() returns (stored: seq<Variation>, reported: seq<int>)
    ensures stored == [RedShirt] && reported == [1, 11]
  {
    var row := new Row();
    var props := Props(Product(1, VariableType, false), [RedShirt, BlueShirt], Many([]), false);
    RedChoiceResolvesToEleven();
    row.UpdateItem(props, map["color" := "red"]);
    stored, reported := row.variations, row.events;
  }
}
