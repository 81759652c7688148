/** The persisted cart (BaseOrder, with the ICart members it inherits):
    an order row that may or may not exist yet, the line rows that point
    at it in pk order, and the operations that read and change them. */
module Orders {
  import opened Wrappers
  import opened Lines
  import opened LineStore
  import opened Plugins
  import opened Updates

  /** Everything outside the order that its operations consult. */
  datatype Env = Env(catalogue: Catalogue, settings: Settings)

  /** What get_line hands back. */
  datatype Found =
    | Stored(index: nat, line: Line)  // the existing row for the key
    | Fresh(key: LineKey)             // a new, unsaved line: no pk, no quantity
    | NotFound                        // None, when asked not to create

  class Order {
    /** The order row exists (it has a pk). */
    var persisted: bool
    /** The line rows whose parent is this order, in pk order. */
    var lines: seq<Line>
    /** What the concrete order's get_voucher_codes returns. */
    var voucherCodes: seq<string>

    /** At most one row per key (unique_together), no row with quantity 0,
        and no rows at all before the order itself is saved. */
    ghost predicate Valid()
      reads this
    {
      KeysUnique(lines) && NoZeroQuantity(lines) && (!persisted ==> lines == [])
    }

    /** An unsaved order. */
    constructor (voucherCodes: seq<string>)
      ensures Valid()
      ensures !persisted && lines == [] && this.voucherCodes == voucherCodes
    {
      persisted := false;
      lines := [];
      this.voucherCodes := voucherCodes;
    }

    /** What the optional modules are shown of this order. */
    function View(): CartView
      reads this
    {
      CartView(lines, voucherCodes)
    }

    /** get_line: the row with the key (item, validated options) if there
        is one, else a fresh line when `create`, else nothing. */
    function GetLine(cat: Catalogue, item: ItemRef, options: Options, create: bool := false): (r: Found)
      reads this
      ensures var key := UpdateKey(cat, item, options);
              && (r.Stored? <==> HasKey(lines, key))
              && (r.Stored? ==> r.index < |lines| && r.line == lines[r.index] && r.line.Key() == key)
              && (r.Stored? ==> r.line.quantity == QuantityOf(lines, key))
              && (r.Fresh? <==> create && !HasKey(lines, key))
              && (r.Fresh? ==> r.key == key && QuantityOf(lines, key) == 0)
              && (r.NotFound? <==> !create && !HasKey(lines, key))
    {
      var key := UpdateKey(cat, item, options);
      QuantityOfFind(lines, key);
      match Find(lines, key)
      case Some(i) => Stored(i, lines[i])
      case None => if create then Fresh(key) else NotFound
    }

    /** get_lines: the rows whose item still resolves, in pk order. */
    function GetLines(cat: Catalogue): (r: seq<Line>)
      reads this
      ensures forall l :: l in r <==> l in lines && cat.resolves(l.item)
      ensures |r| <= |lines|
      ensures KeysUnique(lines) ==> KeysUnique(r)
    {
      VisibleUnique(cat, lines);
      Visible(cat, lines)
    }

    /** count: the sum of the quantities of get_lines. With every stored
        quantity positive, it is at least the number of visible lines and
        0 exactly when get_lines yields nothing. */
    function Count(cat: Catalogue): (r: int)
      reads this
      ensures (forall l :: l in lines ==> l.quantity > 0) ==>
                r >= |GetLines(cat)| && (r == 0 <==> GetLines(cat) == [])
    {
      var ls := GetLines(cat);
      SumQuantitiesPositive(ls);
      SumQuantities(ls)
    }

    /** empty: the count is 0. An order without rows is empty; with every
        stored quantity positive, it is empty exactly when get_lines yields
        nothing. */
    predicate IsEmpty(cat: Catalogue): (r: bool)
      reads this
      ensures lines == [] ==> r
      ensures (forall l :: l in lines ==> l.quantity > 0) ==> (r <==> GetLines(cat) == [])
    {
      Count(cat) == 0
    }

    /** subtotal: the sum of the totals of get_lines, in cents; since a
        line whose item is gone totals 0, that is the sum over every row. */
    function Subtotal(cat: Catalogue): (r: int)
      reads this
      ensures r == SumTotals(cat, lines)
    {
      OrphansAddNoTotalNorErrors(cat, lines);
      SumTotals(cat, GetLines(cat))
    }

    /** shipping_cost: the shipping module's cost, or 0 without one. */
    function ShippingCost(env: Env): (r: int)
      reads this
      ensures env.settings.shipping.None? ==> r == 0
      ensures env.settings.shipping.Some? ==> r == env.settings.shipping.value.calculate(View())
    {
      match env.settings.shipping
      case Some(m) => m.calculate(View())
      case None => 0
    }

    /** shipping_errors: the shipping module's errors, or none without one. */
    function ShippingErrors(env: Env): (r: seq<string>)
      reads this
      ensures env.settings.shipping.None? ==> r == []
      ensures env.settings.shipping.Some? ==> r == env.settings.shipping.value.getErrors(View())
    {
      match env.settings.shipping
      case Some(m) => m.getErrors(View())
      case None => []
    }

    /** calculate_discounts: the voucher module's discounts for this
        order's voucher codes, or ([], None) without one. */
    function CalculateDiscounts(env: Env, includeShipping: bool := true): (r: (seq<Discount>, Option<string>))
      reads this
      ensures env.settings.vouchers.None? ==> r == ([], None)
      ensures env.settings.vouchers.Some? ==>
                r == env.settings.vouchers.value.calculateDiscounts(View(), voucherCodes, includeShipping)
    {
      match env.settings.vouchers
      case Some(m) => m.calculateDiscounts(View(), voucherCodes, includeShipping)
      case None => ([], None)
    }

    /** total_discount: the sum of the amounts calculate_discounts grants
        (shipping included); 0 without a voucher module, and, when no
        discount is negative, never negative and at least each discount. */
    function TotalDiscount(env: Env): (r: int)
      reads this
      ensures env.settings.vouchers.None? ==> r == 0
      ensures (forall d :: d in CalculateDiscounts(env, true).0 ==> d.amount >= 0) ==>
                r >= 0 && forall d :: d in CalculateDiscounts(env, true).0 ==> d.amount <= r
    {
      var ds := CalculateDiscounts(env, true).0;
      SumAmountsBounds(ds);
      SumAmounts(ds)
    }

    /** What get_errors returns: every line's errors in line order, then
        the shipping errors; since a line whose item is gone reports none,
        the line part is the same over every row. */
    function Errors(env: Env): (r: seq<string>)
      reads this
      ensures r == AllLineErrors(env.catalogue, lines) + ShippingErrors(env)
    {
      OrphansAddNoTotalNorErrors(env.catalogue, lines);
      AllLineErrors(env.catalogue, GetLines(env.catalogue)) + ShippingErrors(env)
    }

    /** is_valid: a non-zero count (Python truthiness) and no errors. A
        valid order has a visible line, no row reporting an error and no
        shipping error. */
    predicate IsValid(env: Env): (r: bool)
      reads this
      ensures r ==> GetLines(env.catalogue) != []
      ensures r ==> forall l :: l in lines ==> LineErrors(env.catalogue, l) == []
      ensures r ==> ShippingErrors(env) == []
    {
      NoLineErrorsIff(env.catalogue, lines);
      var errors := Errors(env);
      assert errors == [] ==> AllLineErrors(env.catalogue, lines) == [] && ShippingErrors(env) == [] by {
        if errors == [] {
          assert |AllLineErrors(env.catalogue, lines)| + |ShippingErrors(env)| == 0;
        }
      }
      Count(env.catalogue) != 0 && errors == []
    }

    /** get_errors: accumulates each line's errors, then the shipping ones. */
    method GetErrors(env: Env) returns (errors: seq<string>)
      ensures errors == Errors(env)
    {
      var cat := env.catalogue;
      var ls := GetLines(cat);
      errors := [];
      var i := 0;
      while i < |ls|
        invariant 0 <= i <= |ls|
        invariant errors == AllLineErrors(cat, ls[..i])
      {
        AllLineErrorsAppend(cat, ls[..i], [ls[i]]);
        assert ls[..i + 1] == ls[..i] + [ls[i]];
        assert AllLineErrors(cat, [ls[i]]) == LineErrors(cat, ls[i]) + AllLineErrors(cat, []);
        errors := errors + LineErrors(cat, ls[i]);
        i := i + 1;
      }
      assert ls[..i] == ls;
      errors := errors + ShippingErrors(env);
    }

    /** Deleting the line row with the given key, if there is one. */
    method DeleteLine(key: LineKey)
      requires KeysUnique(lines)
      modifies this
      ensures lines == Purge(old(lines), key) && KeysUnique(lines)
      ensures persisted == old(persisted) && voucherCodes == old(voucherCodes)
    {
      match Find(lines, key)
      case Some(i) =>
        PurgeAt(lines, i);
        lines := lines[..i] + lines[i + 1..];
        PurgeUnique(old(lines), key);
      case None =>
        PurgeAbsent(lines, key);
    }

    /** update_quantity. An additive update of 0 is refused before
        anything else; otherwise an unsaved order is saved first, the line
        for (item, validated options) is looked up or created, its quantity
        is added to or set, a result of exactly 0 deletes it, and any other
        result is saved only if the line reports no errors. */
    method UpdateQuantity(env: Env, item: ItemRef, quantity: int := 1, add: bool := false,
                          options: Options := map[])
      returns (r: Outcome)
      requires Valid()
      modifies this
      ensures Valid()
      ensures (r, lines) == ApplyUpdate(env.catalogue, old(lines), item, quantity, add, options)
      ensures persisted == (old(persisted) || !(quantity == 0 && add))
      ensures voucherCodes == old(voucherCodes)
    {
      var cat := env.catalogue;
      ghost var before := lines;
      UpdateKeepsRowsValid(cat, lines, item, quantity, add, options);
      if quantity == 0 && add {
        return Refused(NoQuantityMessage);
      }
      if !persisted {
        persisted := true;
      }
      var found := GetLine(cat, item, options, true);
      var key := UpdateKey(cat, item, options);
      var current := if found.Stored? then found.line.quantity else 0;
      var q := if add then current + quantity else quantity;
      assert q == NewQuantity(before, key, quantity, add);
      if q == 0 {
        DeleteLine(key);
        return Ok;
      }
      var line := Line(item, key.options, q);
      var errors := LineErrors(cat, line);
      if errors != [] {
        return Invalid(errors);
      }
      SaveLine(found, line);
      return Ok;
    }

    /** line.save() for the line get_line handed back: its row is updated
        in place when it was stored, otherwise a new row is appended. */
    method SaveLine(found: Found, line: Line)
      requires KeysUnique(lines)
      requires found.Stored? ==> found.index < |lines| && lines[found.index].Key() == line.Key()
      requires found.Stored? <==> HasKey(lines, line.Key())
      modifies this
      ensures lines == Upsert(old(lines), line)
      ensures persisted == old(persisted) && voucherCodes == old(voucherCodes)
    {
      if found.Stored? {
        ReplaceAt(lines, found.index, line);
        lines := lines[found.index := line];
      } else {
        lines := lines + [line];
      }
    }

    /** add: an additive update. */
    method Add(env: Env, item: ItemRef, quantity: int := 1, options: Options := map[])
      returns (r: Outcome)
      requires Valid()
      modifies this
      ensures Valid()
      ensures (r, lines) == ApplyUpdate(env.catalogue, old(lines), item, quantity, true, options)
      ensures persisted == (old(persisted) || quantity != 0)
      ensures voucherCodes == old(voucherCodes)
    {
      r := UpdateQuantity(env, item, quantity, true, options);
    }

    /** remove: setting the quantity to 0, which always succeeds and leaves
        no row for the key. */
    method Remove(env: Env, item: ItemRef, options: Options := map[]) returns (r: Outcome)
      requires Valid()
      modifies this
      ensures Valid()
      ensures r == Ok
      ensures lines == Purge(old(lines), UpdateKey(env.catalogue, item, options))
      ensures persisted && voucherCodes == old(voucherCodes)
    {
      r := UpdateQuantity(env, item, 0, false, options);
    }

    /** clear: deletes the order row itself; its line rows go with it.
        Only a saved order can be deleted. */
    method Clear()
      requires persisted
      modifies this
      ensures Valid()
      ensures !persisted && lines == [] && voucherCodes == old(voucherCodes)
    {
      persisted := false;
      lines := [];
    }

    /** The first half of save_to, run on the target: deletes, one after
        the other, the lines get_lines yields. */
    method DeleteVisibleLines(cat: Catalogue)
      requires KeysUnique(lines)
      modifies this
      ensures lines == Orphans(cat, old(lines)) && KeysUnique(lines)
      ensures persisted == old(persisted) && voucherCodes == old(voucherCodes)
    {
      ghost var before := lines;
      var doomed := GetLines(cat);
      var i := 0;
      while i < |doomed|
        invariant 0 <= i <= |doomed|
        invariant lines == PurgeAll(before, doomed[..i])
        invariant KeysUnique(lines)
        invariant persisted == old(persisted) && voucherCodes == old(voucherCodes)
      {
        PurgeAllStep(before, doomed, i);
        DeleteLine(doomed[i].Key());
        i := i + 1;
      }
      assert doomed[..i] == doomed;
      DeletingVisibleLeavesOrphans(cat, before);
    }

    /** The second half of save_to, run on the target: creates one new row
        per given line, copying its item, options and quantity. */
    method CreateLines(source: seq<Line>)
      modifies this
      ensures lines == old(lines) + source
      ensures persisted == old(persisted) && voucherCodes == old(voucherCodes)
    {
      var j := 0;
      while j < |source|
        invariant 0 <= j <= |source|
        invariant lines == old(lines) + source[..j]
        invariant persisted == old(persisted) && voucherCodes == old(voucherCodes)
      {
        var cartLine := source[j];
        lines := lines + [Line(cartLine.item, cartLine.options, cartLine.quantity)];
        assert source[..j + 1] == source[..j] + [cartLine];
        j := j + 1;
      }
      assert source[..j] == source;
    }

    /** save_to: deletes the target's lines that get_lines yields, then
        creates in the target one row per line of this order's get_lines,
        read after the deletions. No transaction surrounds the two steps.
        The target's rows whose item no longer resolves are not deleted,
        and saving an order into itself leaves it no visible line. */
    method SaveTo(env: Env, target: Order)
      requires Valid() && target.Valid() && target.persisted
      modifies target
      ensures target.Valid() && target.persisted
      ensures target.lines ==
        Orphans(env.catalogue, old(target.lines)) + (if target == this then [] else old(GetLines(env.catalogue)))
      ensures target.voucherCodes == old(target.voucherCodes)
      ensures target != this ==> target.GetLines(env.catalogue) == old(GetLines(env.catalogue))
      ensures target == this ==> target.GetLines(env.catalogue) == []
    {
      var cat := env.catalogue;
      ghost var before, mine := target.lines, lines;
      target.DeleteVisibleLines(cat);
      ghost var kept := target.lines;
      NothingVisible(cat, kept);
      var source := GetLines(cat);
      if target == this {
        assert source == Visible(cat, kept) == [];
      } else {
        assert source == Visible(cat, mine);
      }
      target.CreateLines(source);
      MaterializedLines(cat, before, mine);
      if target == this {
        OrphansUnique(cat, before);
        assert target.lines == kept + [] == kept;
        NothingVisible(cat, target.lines);
      }
    }
  }

  /** An order is valid exactly when its count is non-zero, none of its
      visible lines reports an error and shipping reports none; so an
      order whose count is 0 is never valid. */
  lemma ValidityIff(env: Env, o: Order)
    ensures o.IsValid(env) <==>
      && o.Count(env.catalogue) != 0
      && (forall l :: l in o.GetLines(env.catalogue) ==> LineErrors(env.catalogue, l) == [])
      && o.ShippingErrors(env) == []
    ensures o.IsEmpty(env.catalogue) ==> !o.IsValid(env)
  {
    NoLineErrorsIff(env.catalogue, o.GetLines(env.catalogue));
  }
}
