/** The effect of BaseOrder.update_quantity on an order's line rows, as a
    pure function of the rows before the call, and what it guarantees. */
module Updates {
  import opened Lines
  import opened LineStore

  /** The message of an additive update that carries no quantity. */
  const NoQuantityMessage := "No quantity specified"

  /** What update_quantity returns: (True, None), (False, message) or
      (False, errors). */
  datatype Outcome =
    | Ok
    | Refused(message: string)
    | Invalid(errors: seq<string>)
  {
    /** The first element of the returned pair. */
    predicate Succeeded() { Ok? }
  }

  /** The key a lookup for (item, options) uses: options are validated first. */
  function UpdateKey(cat: Catalogue, item: ItemRef, options: Options): LineKey
  {
    LineKey(item, cat.validateOptions(item, options))
  }

  /** The quantity the line gets: added to the stored one (0 for a new
      line) when `add`, the argument itself otherwise. */
  function NewQuantity(ls: seq<Line>, key: LineKey, quantity: int, add: bool): int
  {
    if add then QuantityOf(ls, key) + quantity else quantity
  }

  /** update_quantity(item, quantity, add, options) on rows `ls`: the
      outcome and the rows afterwards. A refusal carries the fixed
      message, a rejection carries at least one error, and neither touches
      the rows; whatever the outcome, only the row for the looked-up key
      can appear, change or go. */
  function ApplyUpdate(cat: Catalogue, ls: seq<Line>, item: ItemRef, quantity: int, add: bool,
                       options: Options): (r: (Outcome, seq<Line>))
    ensures r.0.Refused? ==> r.0.message == NoQuantityMessage
    ensures r.0.Invalid? ==> r.0.errors != []
    ensures !r.0.Succeeded() ==> r.1 == ls
    ensures forall l :: l in r.1 && l.Key() != UpdateKey(cat, item, options) ==> l in ls
    ensures forall l :: l in ls && l.Key() != UpdateKey(cat, item, options) ==> l in r.1
  {
    if quantity == 0 && add then (Refused(NoQuantityMessage), ls)
    else
      var key := UpdateKey(cat, item, options);
      var q := NewQuantity(ls, key, quantity, add);
      if q == 0 then (Ok, Purge(ls, key))
      else
        var line := Line(item, key.options, q);
        var errors := LineErrors(cat, line);
        if errors != [] then (Invalid(errors), ls) else (Ok, Upsert(ls, line))
  }

  /** What one update does, case by case:
      - it is refused, changing nothing, exactly when it adds 0;
      - it is rejected, changing nothing, exactly when the line with its
        new, non-zero quantity reports errors, and then returns them;
      - otherwise it succeeds, the key reads the new quantity (0, with no
        row left, when the new quantity is 0; a negative quantity is kept)
        and no other key changes. */
  lemma UpdateEffect(cat: Catalogue, ls: seq<Line>, item: ItemRef, quantity: int, add: bool,
                     options: Options, k': LineKey)
    ensures var (r, ls') := ApplyUpdate(cat, ls, item, quantity, add, options);
            var key := UpdateKey(cat, item, options);
            var q := NewQuantity(ls, key, quantity, add);
            var errors := LineErrors(cat, Line(item, key.options, q));
            && (r == Refused(NoQuantityMessage) <==> add && quantity == 0)
            && (r.Invalid? <==> !(add && quantity == 0) && q != 0 && errors != [])
            && (r.Invalid? ==> r.errors == errors)
            && (r.Succeeded() <==> !(add && quantity == 0) && (q == 0 || errors == []))
            && (!r.Succeeded() ==> ls' == ls)
            && (r.Succeeded() ==> QuantityOf(ls', k') == if k' == key then q else QuantityOf(ls, k'))
            && (r.Succeeded() ==> (HasKey(ls', key) <==> q != 0))
  {
    var (r, ls') := ApplyUpdate(cat, ls, item, quantity, add, options);
    var key := UpdateKey(cat, item, options);
    var q := NewQuantity(ls, key, quantity, add);
    if r.Succeeded() {
      if q == 0 {
        QuantityOfPurge(ls, key, k');
      } else {
        var line := Line(item, key.options, q);
        QuantityOfUpsert(ls, line, k');
      }
    }
  }

  /** An update keeps the order's rows well formed: still at most one row
      per key, and still no row with quantity 0. */
  lemma UpdateKeepsRowsValid(cat: Catalogue, ls: seq<Line>, item: ItemRef, quantity: int, add: bool,
                             options: Options)
    requires KeysUnique(ls) && NoZeroQuantity(ls)
    ensures KeysUnique(ApplyUpdate(cat, ls, item, quantity, add, options).1)
    ensures NoZeroQuantity(ApplyUpdate(cat, ls, item, quantity, add, options).1)
  {
    if !(quantity == 0 && add) {
      var key := UpdateKey(cat, item, options);
      var q := NewQuantity(ls, key, quantity, add);
      if q == 0 {
        PurgeUnique(ls, key);
      } else {
        var line := Line(item, key.options, q);
        UpsertUnique(ls, line);
        var up := Upsert(ls, line);
        forall l | l in up
          ensures l.quantity != 0
        {
          if HasKey(ls, line.Key()) {
            var i :| 0 <= i < |up| && up[i] == l;
            assert l == line || l == ls[i];
          } else {
            assert l in ls || l == line;
          }
        }
      }
    }
  }

  /** Rows keep their pk order: a successful update that keeps the line
      updates its row in place when it existed and appends a new last row
      otherwise; one that drops it removes just that row. */
  lemma UpdateKeepsRowOrder(cat: Catalogue, ls: seq<Line>, item: ItemRef, quantity: int, add: bool,
                            options: Options)
    requires KeysUnique(ls)
    ensures var (r, ls') := ApplyUpdate(cat, ls, item, quantity, add, options);
            var key := UpdateKey(cat, item, options);
            var q := NewQuantity(ls, key, quantity, add);
            && (r.Succeeded() && q != 0 && !HasKey(ls, key) ==> ls' == ls + [Line(item, key.options, q)])
            && (r.Succeeded() && q != 0 && HasKey(ls, key) ==>
                  |ls'| == |ls| &&
                  forall i :: 0 <= i < |ls| ==> ls'[i].Key() == ls[i].Key() &&
                                                (ls[i].Key() != key ==> ls'[i] == ls[i]))
            && (r.Succeeded() && q == 0 && HasKey(ls, key) ==>
                  exists i :: 0 <= i < |ls| && ls[i].Key() == key && ls' == ls[..i] + ls[i + 1..])
            && (r.Succeeded() && q == 0 && !HasKey(ls, key) ==> ls' == ls)
  {
    var key := UpdateKey(cat, item, options);
    var q := NewQuantity(ls, key, quantity, add);
    if !(quantity == 0 && add) && q == 0 {
      if HasKey(ls, key) {
        var i :| 0 <= i < |ls| && ls[i].Key() == key;
        PurgeAt(ls, i);
      } else {
        PurgeAbsent(ls, key);
      }
    }
  }

  /** How a successful update of an item that resolves moves the count:
      the old quantity under the key is replaced by the new one. */
  lemma UpdateMovesCount(cat: Catalogue, ls: seq<Line>, item: ItemRef, quantity: int, add: bool,
                         options: Options)
    requires KeysUnique(ls) && cat.resolves(item)
    ensures var (r, ls') := ApplyUpdate(cat, ls, item, quantity, add, options);
            var key := UpdateKey(cat, item, options);
            r.Succeeded() ==>
              SumQuantities(Visible(cat, ls')) ==
              SumQuantities(Visible(cat, ls)) - QuantityOf(ls, key) + NewQuantity(ls, key, quantity, add)
  {
    var key := UpdateKey(cat, item, options);
    var q := NewQuantity(ls, key, quantity, add);
    if !(quantity == 0 && add) {
      if q == 0 {
        CountAfterPurge(cat, ls, key);
      } else {
        CountAfterUpsert(cat, ls, Line(item, key.options, q));
      }
    }
  }

  /** add(item, a) then add(item, b), both accepted, merge into one row
      holding the stored quantity plus a plus b (add 2 then 3 to an order
      without the item gives 5). */
  lemma AddTwiceMerges(cat: Catalogue, ls: seq<Line>, item: ItemRef, a: int, b: int, options: Options)
    requires KeysUnique(ls) && NoZeroQuantity(ls)
    requires ApplyUpdate(cat, ls, item, a, true, options).0.Succeeded()
    requires ApplyUpdate(cat, ApplyUpdate(cat, ls, item, a, true, options).1, item, b, true, options).0.Succeeded()
    ensures var ls2 := ApplyUpdate(cat, ApplyUpdate(cat, ls, item, a, true, options).1, item, b, true, options).1;
            var key := UpdateKey(cat, item, options);
            && QuantityOf(ls2, key) == QuantityOf(ls, key) + a + b
            && (HasKey(ls2, key) <==> QuantityOf(ls, key) + a + b != 0)
            && KeysUnique(ls2)
  {
    var key := UpdateKey(cat, item, options);
    var ls1 := ApplyUpdate(cat, ls, item, a, true, options).1;
    UpdateEffect(cat, ls, item, a, true, options, key);
    UpdateEffect(cat, ls1, item, b, true, options, key);
    UpdateKeepsRowsValid(cat, ls, item, a, true, options);
    UpdateKeepsRowsValid(cat, ls1, item, b, true, options);
  }
}
