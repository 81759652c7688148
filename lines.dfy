/** One cart line and the item capability it relies on (ICartLine,
    BaseOrderLine and ICartItem in shoptools/cart/base.py).

    A line refers to its item generically, by content type and object id;
    the item may have been deleted, in which case the reference no longer
    resolves. Everything the item itself computes is supplied by the
    catalogue as an uninterpreted function. Money is integer cents. */
module Lines {

  /** The generic reference a line holds: content type and object id. */
  datatype ItemRef = ItemRef(contentType: string, objectId: nat)

  /** Purchase options, option name to chosen value. */
  type Options = map<string, string>

  /** What identifies a line inside one order: item and validated options. */
  datatype LineKey = LineKey(item: ItemRef, options: Options)

  /** A stored line: its item, its (validated) options and its quantity.
      The quantity is a plain integer column, so it may be negative. */
  datatype Line = Line(item: ItemRef, options: Options, quantity: int)
  {
    function Key(): LineKey { LineKey(item, options) }
  }

  /** The catalogue side of the system, which the cart only consults:
      - resolves: whether the generic reference still finds an item;
      - validateOptions: the options normaliser used before every lookup;
      - cartErrors: the item's own validation of a line (stock, ...);
      - cartLineTotal: the item's price for a line, in cents;
      - cartDescription: the item's description of itself. */
  datatype Catalogue = Catalogue(
    resolves: ItemRef -> bool,
    validateOptions: (ItemRef, Options) -> Options,
    cartErrors: Line -> seq<string>,
    cartLineTotal: Line -> int,
    cartDescription: ItemRef -> string)

  /** The line's errors (get_errors): the item's own validation of the
      line, or none when the item is gone. */
  function LineErrors(cat: Catalogue, line: Line): (r: seq<string>)
    ensures !cat.resolves(line.item) ==> r == []
    ensures cat.resolves(line.item) ==> r == cat.cartErrors(line)
  {
    if cat.resolves(line.item) then cat.cartErrors(line) else []
  }

  /** The line's total in cents: the item's price for the line, or 0 when
      the item is gone. */
  function LineTotal(cat: Catalogue, line: Line): (r: int)
    ensures !cat.resolves(line.item) ==> r == 0
    ensures cat.resolves(line.item) ==> r == cat.cartLineTotal(line)
  {
    if cat.resolves(line.item) then cat.cartLineTotal(line) else 0
  }

  /** The line's description: the item's description of itself, or empty
      when the item is gone. */
  function Description(cat: Catalogue, line: Line): (r: string)
    ensures !cat.resolves(line.item) ==> r == ""
    ensures cat.resolves(line.item) ==> r == cat.cartDescription(line.item)
  {
    if cat.resolves(line.item) then cat.cartDescription(line.item) else ""
  }
}
