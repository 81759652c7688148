/** The rows an order owns, as a sequence of lines in primary-key order
    (a new row goes to the end; an updated row keeps its place), and the
    pure operations the order performs on them: lookup by key, deletion,
    in-place update or append, the get_lines filter and the sums over it. */
module LineStore {
  import opened Wrappers
  import opened Lines

  // ---------------------------------------------------------------------
  // Lookup by key

  /** Some stored line has key k. */
  predicate HasKey(ls: seq<Line>, k: LineKey)
  {
    exists i :: 0 <= i < |ls| && ls[i].Key() == k
  }

  /** The position of the first line with key k, if any. */
  function Find(ls: seq<Line>, k: LineKey): (r: Option<nat>)
    ensures r.None? <==> !HasKey(ls, k)
    ensures r.Some? ==> r.value < |ls| && ls[r.value].Key() == k
    ensures r.Some? ==> forall j :: 0 <= j < r.value ==> ls[j].Key() != k
  {
    if ls == [] then None
    else if ls[0].Key() == k then Some(0)
    else
      match Find(ls[1..], k)
      case Some(i) => Some(i + 1)
      case None =>
        assert forall i :: 1 <= i < |ls| ==> ls[i] == ls[1..][i - 1];
        None
  }

  /** The quantity stored under key k, 0 when there is no such line
      (a line created on the fly has no quantity yet, read as 0). */
  function QuantityOf(ls: seq<Line>, k: LineKey): int
  {
    if ls == [] then 0
    else if ls[0].Key() == k then ls[0].quantity
    else QuantityOf(ls[1..], k)
  }

  /** At most one line per key: the unique_together constraint. */
  predicate KeysUnique(ls: seq<Line>)
  {
    ls == [] || (!HasKey(ls[1..], ls[0].Key()) && KeysUnique(ls[1..]))
  }

  /** No stored line has quantity 0 (such a line is deleted instead). */
  predicate NoZeroQuantity(ls: seq<Line>)
  {
    forall l :: l in ls ==> l.quantity != 0
  }

  lemma {:induction false} QuantityOfFind(ls: seq<Line>, k: LineKey)
    ensures Find(ls, k).Some? ==> QuantityOf(ls, k) == ls[Find(ls, k).value].quantity
    ensures Find(ls, k).None? ==> QuantityOf(ls, k) == 0
  {
    if ls != [] && ls[0].Key() != k {
      QuantityOfFind(ls[1..], k);
    }
  }

  lemma {:induction false} HasKeyAppend(a: seq<Line>, b: seq<Line>, k: LineKey)
    ensures HasKey(a + b, k) <==> HasKey(a, k) || HasKey(b, k)
  {
    if HasKey(a + b, k) {
      var i :| 0 <= i < |a + b| && (a + b)[i].Key() == k;
      if i < |a| { assert a[i] == (a + b)[i]; } else { assert b[i - |a|] == (a + b)[i]; }
    }
    if HasKey(a, k) {
      var i :| 0 <= i < |a| && a[i].Key() == k;
      assert (a + b)[i] == a[i];
    }
    if HasKey(b, k) {
      var i :| 0 <= i < |b| && b[i].Key() == k;
      assert (a + b)[|a| + i] == b[i];
    }
  }

  /** A key absent from y is absent from any selection of y's lines. */
  lemma NoKeyInSubset(x: seq<Line>, y: seq<Line>, k: LineKey)
    requires forall l :: l in x ==> l in y
    requires !HasKey(y, k)
    ensures !HasKey(x, k)
  {
    forall i | 0 <= i < |x|
      ensures x[i].Key() != k
    {
      assert x[i] in y;
      var j :| 0 <= j < |y| && y[j] == x[i];
    }
  }

  /** Under uniqueness, two different positions hold different keys. */
  lemma {:induction false} UniqueAt(ls: seq<Line>, i: nat, j: nat)
    requires KeysUnique(ls) && i < |ls| && j < |ls| && i != j
    ensures ls[i].Key() != ls[j].Key()
  {
    if i == 0 {
      assert ls[j] == ls[1..][j - 1];
    } else if j == 0 {
      assert ls[i] == ls[1..][i - 1];
    } else {
      UniqueAt(ls[1..], i - 1, j - 1);
    }
  }

  /** Concatenating two duplicate-free line sequences that share no key
      gives a duplicate-free sequence. */
  lemma {:induction false} UniqueAppend(a: seq<Line>, b: seq<Line>)
    requires KeysUnique(a) && KeysUnique(b)
    requires forall l :: l in a ==> !HasKey(b, l.Key())
    ensures KeysUnique(a + b)
  {
    if a != [] {
      assert (a + b)[1..] == a[1..] + b;
      UniqueAppend(a[1..], b);
      HasKeyAppend(a[1..], b, a[0].Key());
    } else {
      assert a + b == b;
    }
  }

  // ---------------------------------------------------------------------
  // Deleting a line

  /** The rows that remain when the line with key k is deleted. */
  function Purge(ls: seq<Line>, k: LineKey): (r: seq<Line>)
    ensures forall l :: l in r <==> l in ls && l.Key() != k
    ensures !HasKey(r, k)
    ensures |r| <= |ls|
  {
    if ls == [] then []
    else if ls[0].Key() == k then Purge(ls[1..], k)
    else [ls[0]] + Purge(ls[1..], k)
  }

  lemma {:induction false} PurgeAbsent(ls: seq<Line>, k: LineKey)
    requires !HasKey(ls, k)
    ensures Purge(ls, k) == ls
  {
    if ls != [] {
      assert ls[0].Key() != k;
      forall i | 0 <= i < |ls| - 1
        ensures ls[1..][i].Key() != k
      {
        assert ls[1..][i] == ls[i + 1];
      }
      PurgeAbsent(ls[1..], k);
    }
  }

  /** Deleting the row at position i is deleting the line with its key. */
  lemma {:induction false} PurgeAt(ls: seq<Line>, i: nat)
    requires KeysUnique(ls) && i < |ls|
    ensures ls[..i] + ls[i + 1..] == Purge(ls, ls[i].Key())
  {
    if i == 0 {
      PurgeAbsent(ls[1..], ls[0].Key());
    } else {
      UniqueAt(ls, 0, i);
      assert ls[1..][i - 1] == ls[i];
      PurgeAt(ls[1..], i - 1);
      assert ls[..i] + ls[i + 1..] == [ls[0]] + (ls[1..][..i - 1] + ls[1..][i..]);
    }
  }

  lemma {:induction false} PurgeUnique(ls: seq<Line>, k: LineKey)
    requires KeysUnique(ls)
    ensures KeysUnique(Purge(ls, k))
  {
    if ls != [] {
      PurgeUnique(ls[1..], k);
      if ls[0].Key() != k {
        var r := Purge(ls, k);
        assert r[1..] == Purge(ls[1..], k);
        NoKeyInSubset(r[1..], ls[1..], ls[0].Key());
      }
    }
  }

  /** After deleting k, key k reads 0 and every other key is untouched. */
  lemma {:induction false} QuantityOfPurge(ls: seq<Line>, k: LineKey, k': LineKey)
    ensures QuantityOf(Purge(ls, k), k') == if k' == k then 0 else QuantityOf(ls, k')
  {
    if ls != [] {
      QuantityOfPurge(ls[1..], k, k');
      if ls[0].Key() != k {
        assert ([ls[0]] + Purge(ls[1..], k))[1..] == Purge(ls[1..], k);
      }
    }
  }

  // ---------------------------------------------------------------------
  // Updating a line in place, or appending a new one

  /** Every line with the key of `line` replaced by `line`. */
  function Replace(ls: seq<Line>, line: Line): (r: seq<Line>)
    ensures |r| == |ls|
    ensures forall i :: 0 <= i < |ls| ==> r[i] == (if ls[i].Key() == line.Key() then line else ls[i])
  {
    if ls == [] then []
    else [if ls[0].Key() == line.Key() then line else ls[0]] + Replace(ls[1..], line)
  }

  /** Saving `line`: its row is updated in place if one with its key
      exists, otherwise a new row is appended (it gets the next pk). */
  function Upsert(ls: seq<Line>, line: Line): (r: seq<Line>)
    ensures HasKey(r, line.Key())
    ensures forall l :: l in r <==> l == line || (l in ls && l.Key() != line.Key())
    ensures |r| == if HasKey(ls, line.Key()) then |ls| else |ls| + 1
  {
    if HasKey(ls, line.Key()) then ReplaceMembers(ls, line); Replace(ls, line)
    else
      assert (ls + [line])[|ls|] == line;
      ls + [line]
  }

  /** Replacing a key that is stored puts `line` in, and takes out exactly
      the other lines with its key. */
  lemma ReplaceMembers(ls: seq<Line>, line: Line)
    requires HasKey(ls, line.Key())
    ensures HasKey(Replace(ls, line), line.Key())
    ensures forall l :: l in Replace(ls, line) <==> l == line || (l in ls && l.Key() != line.Key())
  {
    var r := Replace(ls, line);
    var i :| 0 <= i < |ls| && ls[i].Key() == line.Key();
    assert r[i] == line;
    forall l | l in r
      ensures l == line || (l in ls && l.Key() != line.Key())
    {
      var j :| 0 <= j < |r| && r[j] == l;
      assert l == line || l == ls[j];
    }
    forall l | l in ls && l.Key() != line.Key()
      ensures l in r
    {
      var j :| 0 <= j < |ls| && ls[j] == l;
      assert r[j] == l;
    }
  }

  /** Updating the row at position i, under uniqueness, is replacing by key. */
  lemma ReplaceAt(ls: seq<Line>, i: nat, line: Line)
    requires KeysUnique(ls) && i < |ls| && ls[i].Key() == line.Key()
    ensures ls[i := line] == Replace(ls, line)
  {
    forall j | 0 <= j < |ls| && j != i
      ensures ls[j].Key() != line.Key()
    {
      UniqueAt(ls, i, j);
    }
  }

  lemma {:induction false} ReplaceUnique(ls: seq<Line>, line: Line)
    requires KeysUnique(ls)
    ensures KeysUnique(Replace(ls, line))
  {
    if ls != [] {
      var r := Replace(ls, line);
      assert r[1..] == Replace(ls[1..], line);
      ReplaceUnique(ls[1..], line);
      forall i | 0 <= i < |r| - 1
        ensures r[1..][i].Key() != r[0].Key()
      {
        assert r[1..][i].Key() == ls[1..][i].Key();
      }
    }
  }

  lemma {:induction false} QuantityOfReplace(ls: seq<Line>, line: Line, k': LineKey)
    ensures QuantityOf(Replace(ls, line), k') ==
      if k' == line.Key() && HasKey(ls, k') then line.quantity else QuantityOf(ls, k')
  {
    if ls != [] {
      var r := Replace(ls, line);
      assert r[1..] == Replace(ls[1..], line);
      QuantityOfReplace(ls[1..], line, k');
      HasKeyAppend([ls[0]], ls[1..], k');
      assert [ls[0]] + ls[1..] == ls;
    }
  }

  lemma {:induction false} QuantityOfAppend(a: seq<Line>, b: seq<Line>, k: LineKey)
    ensures QuantityOf(a + b, k) == if HasKey(a, k) then QuantityOf(a, k) else QuantityOf(b, k)
  {
    if a == [] {
      assert a + b == b;
    } else {
      assert (a + b)[1..] == a[1..] + b;
      QuantityOfAppend(a[1..], b, k);
      HasKeyAppend([a[0]], a[1..], k);
      assert [a[0]] + a[1..] == a;
    }
  }

  /** After saving `line`, its key reads its quantity and every other key
      is untouched. */
  lemma QuantityOfUpsert(ls: seq<Line>, line: Line, k': LineKey)
    ensures QuantityOf(Upsert(ls, line), k') ==
      if k' == line.Key() then line.quantity else QuantityOf(ls, k')
  {
    if HasKey(ls, line.Key()) {
      QuantityOfReplace(ls, line, k');
    } else {
      QuantityOfAppend(ls, [line], k');
      if k' != line.Key() && !HasKey(ls, k') {
        QuantityOfFind(ls, k');
      }
    }
  }

  /** Saving a line never creates a second line with the same key. */
  lemma UpsertUnique(ls: seq<Line>, line: Line)
    requires KeysUnique(ls)
    ensures KeysUnique(Upsert(ls, line))
  {
    if HasKey(ls, line.Key()) {
      ReplaceUnique(ls, line);
    } else {
      forall l | l in ls
        ensures !HasKey([line], l.Key())
      {
        var i :| 0 <= i < |ls| && ls[i] == l;
        assert l.Key() != line.Key();
      }
      assert KeysUnique([line]) by { assert [line][1..] == []; }
      UniqueAppend(ls, [line]);
      assert (ls + [line])[|ls|] == line;
    }
  }

  // ---------------------------------------------------------------------
  // The get_lines filter

  /** The lines whose item still resolves, in stored order. */
  function Visible(cat: Catalogue, ls: seq<Line>): (r: seq<Line>)
    ensures forall l :: l in r <==> l in ls && cat.resolves(l.item)
    ensures |r| <= |ls|
  {
    if ls == [] then []
    else (if cat.resolves(ls[0].item) then [ls[0]] else []) + Visible(cat, ls[1..])
  }

  /** The lines whose item no longer resolves, in stored order. */
  function Orphans(cat: Catalogue, ls: seq<Line>): (r: seq<Line>)
    ensures forall l :: l in r <==> l in ls && !cat.resolves(l.item)
    ensures |r| <= |ls|
  {
    if ls == [] then []
    else (if cat.resolves(ls[0].item) then [] else [ls[0]]) + Orphans(cat, ls[1..])
  }

  /** get_lines distributes over concatenation, so it keeps stored order. */
  lemma {:induction false} VisibleAppend(cat: Catalogue, a: seq<Line>, b: seq<Line>)
    ensures Visible(cat, a + b) == Visible(cat, a) + Visible(cat, b)
  {
    if a == [] {
      assert a + b == b;
    } else {
      assert (a + b)[1..] == a[1..] + b;
      VisibleAppend(cat, a[1..], b);
    }
  }

  /** Filtering twice filters nothing more. */
  lemma {:induction false} VisibleIdempotent(cat: Catalogue, ls: seq<Line>)
    ensures Visible(cat, Visible(cat, ls)) == Visible(cat, ls)
  {
    if ls != [] {
      var head := if cat.resolves(ls[0].item) then [ls[0]] else [];
      VisibleAppend(cat, head, Visible(cat, ls[1..]));
      VisibleIdempotent(cat, ls[1..]);
      if head != [] {
        assert Visible(cat, head) == [ls[0]] + Visible(cat, []);
      }
    }
  }

  lemma {:induction false} NothingVisible(cat: Catalogue, ls: seq<Line>)
    requires forall l :: l in ls ==> !cat.resolves(l.item)
    ensures Visible(cat, ls) == []
  {
    if ls != [] {
      assert ls[0] in ls;
      NothingVisible(cat, ls[1..]);
    }
  }

  lemma {:induction false} VisibleUnique(cat: Catalogue, ls: seq<Line>)
    ensures KeysUnique(ls) ==> KeysUnique(Visible(cat, ls))
  {
    if ls != [] && KeysUnique(ls) {
      VisibleUnique(cat, ls[1..]);
      var r := Visible(cat, ls);
      if cat.resolves(ls[0].item) {
        assert r[1..] == Visible(cat, ls[1..]);
        NoKeyInSubset(r[1..], ls[1..], ls[0].Key());
      } else {
        assert r == Visible(cat, ls[1..]);
      }
    }
  }

  lemma {:induction false} OrphansUnique(cat: Catalogue, ls: seq<Line>)
    requires KeysUnique(ls)
    ensures KeysUnique(Orphans(cat, ls))
  {
    if ls != [] {
      OrphansUnique(cat, ls[1..]);
      var r := Orphans(cat, ls);
      if !cat.resolves(ls[0].item) {
        assert r[1..] == Orphans(cat, ls[1..]);
        NoKeyInSubset(r[1..], ls[1..], ls[0].Key());
      } else {
        assert r == Orphans(cat, ls[1..]);
      }
    }
  }

  // ---------------------------------------------------------------------
  // Sums over the lines

  /** Sum of the quantities (count). */
  function SumQuantities(ls: seq<Line>): int
  {
    if ls == [] then 0 else ls[0].quantity + SumQuantities(ls[1..])
  }

  /** With every quantity positive, the sum is at least the number of
      lines, so it is 0 exactly when there is no line. */
  lemma {:induction false} SumQuantitiesPositive(ls: seq<Line>)
    ensures (forall l :: l in ls ==> l.quantity > 0) ==>
              SumQuantities(ls) >= |ls| && (SumQuantities(ls) == 0 <==> ls == [])
  {
    if ls != [] && forall l :: l in ls ==> l.quantity > 0 {
      assert ls[0] in ls;
      assert forall l :: l in ls[1..] ==> l in ls;
      SumQuantitiesPositive(ls[1..]);
    }
  }

  /** Sum of the line totals in cents (subtotal). */
  function SumTotals(cat: Catalogue, ls: seq<Line>): int
  {
    if ls == [] then 0 else LineTotal(cat, ls[0]) + SumTotals(cat, ls[1..])
  }

  /** The lines' errors, concatenated in line order. */
  function AllLineErrors(cat: Catalogue, ls: seq<Line>): seq<string>
  {
    if ls == [] then [] else LineErrors(cat, ls[0]) + AllLineErrors(cat, ls[1..])
  }

  lemma {:induction false} SumQuantitiesAppend(a: seq<Line>, b: seq<Line>)
    ensures SumQuantities(a + b) == SumQuantities(a) + SumQuantities(b)
  {
    if a == [] {
      assert a + b == b;
    } else {
      assert (a + b)[1..] == a[1..] + b;
      SumQuantitiesAppend(a[1..], b);
    }
  }

  lemma {:induction false} AllLineErrorsAppend(cat: Catalogue, a: seq<Line>, b: seq<Line>)
    ensures AllLineErrors(cat, a + b) == AllLineErrors(cat, a) + AllLineErrors(cat, b)
  {
    if a == [] {
      assert a + b == b;
    } else {
      assert (a + b)[1..] == a[1..] + b;
      AllLineErrorsAppend(cat, a[1..], b);
    }
  }

  /** The concatenated errors are empty exactly when every line has none. */
  lemma {:induction false} NoLineErrorsIff(cat: Catalogue, ls: seq<Line>)
    ensures AllLineErrors(cat, ls) == [] <==> forall l :: l in ls ==> LineErrors(cat, l) == []
  {
    if ls != [] {
      NoLineErrorsIff(cat, ls[1..]);
      assert forall l :: l in ls <==> l == ls[0] || l in ls[1..];
    }
  }

  /** Lines whose item is gone add nothing to the subtotal or the errors:
      summing over get_lines or over every stored row gives the same. */
  lemma {:induction false} OrphansAddNoTotalNorErrors(cat: Catalogue, ls: seq<Line>)
    ensures SumTotals(cat, Visible(cat, ls)) == SumTotals(cat, ls)
    ensures AllLineErrors(cat, Visible(cat, ls)) == AllLineErrors(cat, ls)
  {
    if ls != [] {
      OrphansAddNoTotalNorErrors(cat, ls[1..]);
      if cat.resolves(ls[0].item) {
        assert Visible(cat, ls) == [ls[0]] + Visible(cat, ls[1..]);
        assert Visible(cat, ls)[1..] == Visible(cat, ls[1..]);
      } else {
        assert Visible(cat, ls) == [] + Visible(cat, ls[1..]) == Visible(cat, ls[1..]);
        assert AllLineErrors(cat, ls) == [] + AllLineErrors(cat, ls[1..]);
      }
    }
  }

  /** How deleting key k changes the count: it drops by the quantity
      stored under k when k's item resolves, and not at all otherwise. */
  lemma {:induction false} CountAfterPurge(cat: Catalogue, ls: seq<Line>, k: LineKey)
    requires KeysUnique(ls)
    ensures SumQuantities(Visible(cat, Purge(ls, k))) ==
      SumQuantities(Visible(cat, ls)) - (if cat.resolves(k.item) then QuantityOf(ls, k) else 0)
  {
    if ls != [] {
      var head := if cat.resolves(ls[0].item) then [ls[0]] else [];
      assert Visible(cat, ls) == head + Visible(cat, ls[1..]);
      SumQuantitiesAppend(head, Visible(cat, ls[1..]));
      if ls[0].Key() == k {
        PurgeAbsent(ls[1..], k);
        QuantityOfFind(ls[1..], k);
      } else {
        CountAfterPurge(cat, ls[1..], k);
        var p := Purge(ls[1..], k);
        assert Purge(ls, k) == [ls[0]] + p;
        VisibleAppend(cat, [ls[0]], p);
        assert Visible(cat, [ls[0]]) == head + Visible(cat, []);
        SumQuantitiesAppend(head, Visible(cat, p));
      }
    }
  }

  /** How replacing the line with line's key changes the count, when
      line's item resolves. */
  lemma {:induction false} CountAfterReplace(cat: Catalogue, ls: seq<Line>, line: Line)
    requires KeysUnique(ls) && cat.resolves(line.item) && HasKey(ls, line.Key())
    ensures SumQuantities(Visible(cat, Replace(ls, line))) ==
      SumQuantities(Visible(cat, ls)) - QuantityOf(ls, line.Key()) + line.quantity
  {
    var r := Replace(ls, line);
    assert r[1..] == Replace(ls[1..], line);
    assert r == [r[0]] + r[1..];
    VisibleAppend(cat, [r[0]], r[1..]);
    VisibleAppend(cat, [ls[0]], ls[1..]);
    assert [ls[0]] + ls[1..] == ls;
    assert Visible(cat, [r[0]]) == (if cat.resolves(r[0].item) then [r[0]] else []) + Visible(cat, []);
    assert Visible(cat, [ls[0]]) == (if cat.resolves(ls[0].item) then [ls[0]] else []) + Visible(cat, []);
    SumQuantitiesAppend(Visible(cat, [r[0]]), Visible(cat, r[1..]));
    SumQuantitiesAppend(Visible(cat, [ls[0]]), Visible(cat, ls[1..]));
    if ls[0].Key() == line.Key() {
      ReplaceAbsentKey(ls[1..], line);
    } else {
      assert HasKey(ls[1..], line.Key()) by {
        var i :| 0 <= i < |ls| && ls[i].Key() == line.Key();
        assert ls[1..][i - 1] == ls[i];
      }
      CountAfterReplace(cat, ls[1..], line);
    }
  }

  lemma ReplaceAbsentKey(ls: seq<Line>, line: Line)
    requires !HasKey(ls, line.Key())
    ensures Replace(ls, line) == ls
  {
  }

  /** How saving a line whose item resolves changes the count: the old
      quantity under its key (0 if new) is swapped for the new one. */
  lemma CountAfterUpsert(cat: Catalogue, ls: seq<Line>, line: Line)
    requires KeysUnique(ls) && cat.resolves(line.item)
    ensures SumQuantities(Visible(cat, Upsert(ls, line))) ==
      SumQuantities(Visible(cat, ls)) - QuantityOf(ls, line.Key()) + line.quantity
  {
    if HasKey(ls, line.Key()) {
      CountAfterReplace(cat, ls, line);
    } else {
      UpsertAppendCount(cat, ls, line);
    }
  }

  lemma UpsertAppendCount(cat: Catalogue, ls: seq<Line>, line: Line)
    requires !HasKey(ls, line.Key()) && cat.resolves(line.item)
    ensures SumQuantities(Visible(cat, ls + [line])) == SumQuantities(Visible(cat, ls)) + line.quantity
    ensures QuantityOf(ls, line.Key()) == 0
  {
    QuantityOfFind(ls, line.Key());
    VisibleAppend(cat, ls, [line]);
    assert Visible(cat, [line]) == [line] + Visible(cat, []) == [line];
    SumQuantitiesAppend(Visible(cat, ls), [line]);
    assert [line][1..] == [];
    assert SumQuantities([line]) == line.quantity;
  }

  // ---------------------------------------------------------------------
  // Deleting every line get_lines yields

  /** The rows left after deleting, one after the other, the lines with
      the keys of `doomed`. */
  function PurgeAll(ls: seq<Line>, doomed: seq<Line>): seq<Line>
    decreases |doomed|
  {
    if doomed == [] then ls
    else Purge(PurgeAll(ls, doomed[..|doomed| - 1]), doomed[|doomed| - 1].Key())
  }

  /** One more deletion extends PurgeAll by one step. */
  lemma PurgeAllStep(ls: seq<Line>, doomed: seq<Line>, i: nat)
    requires i < |doomed|
    ensures PurgeAll(ls, doomed[..i + 1]) == Purge(PurgeAll(ls, doomed[..i]), doomed[i].Key())
  {
    assert doomed[..i + 1][..i] == doomed[..i];
  }

  /** The lines whose key is outside `gone`, in order. */
  function Without(ls: seq<Line>, gone: set<LineKey>): seq<Line>
  {
    if ls == [] then []
    else (if ls[0].Key() in gone then [] else [ls[0]]) + Without(ls[1..], gone)
  }

  function KeySet(ls: seq<Line>): set<LineKey>
  {
    set l | l in ls :: l.Key()
  }

  lemma {:induction false} PurgeWithout(ls: seq<Line>, gone: set<LineKey>, k: LineKey)
    ensures Purge(Without(ls, gone), k) == Without(ls, gone + {k})
  {
    if ls != [] {
      var w, w' := Without(ls[1..], gone), Without(ls[1..], gone + {k});
      PurgeWithout(ls[1..], gone, k);
      if ls[0].Key() in gone {
        assert Without(ls, gone) == [] + w == w;
        assert Without(ls, gone + {k}) == [] + w' == w';
      } else if ls[0].Key() == k {
        assert Without(ls, gone) == [ls[0]] + w;
        assert ([ls[0]] + w)[1..] == w;
        assert Without(ls, gone + {k}) == [] + w' == w';
      } else {
        assert Without(ls, gone) == [ls[0]] + w;
        assert ([ls[0]] + w)[1..] == w;
        assert Without(ls, gone + {k}) == [ls[0]] + w';
      }
    }
  }

  lemma {:induction false} PurgeAllWithout(ls: seq<Line>, doomed: seq<Line>)
    ensures PurgeAll(ls, doomed) == Without(ls, KeySet(doomed))
    decreases |doomed|
  {
    if doomed == [] {
      assert KeySet(doomed) == {};
      WithoutNothing(ls);
    } else {
      var n := |doomed| - 1;
      PurgeAllWithout(ls, doomed[..n]);
      PurgeWithout(ls, KeySet(doomed[..n]), doomed[n].Key());
      assert doomed == doomed[..n] + [doomed[n]];
      assert KeySet(doomed) == KeySet(doomed[..n]) + {doomed[n].Key()};
    }
  }

  lemma WithoutNothing(ls: seq<Line>)
    ensures Without(ls, {}) == ls
  {
  }

  lemma {:induction false} WithoutResolvedKeys(cat: Catalogue, ls: seq<Line>, gone: set<LineKey>)
    requires forall l :: l in ls ==> (l.Key() in gone <==> cat.resolves(l.item))
    ensures Without(ls, gone) == Orphans(cat, ls)
  {
    if ls != [] {
      assert ls[0] in ls;
      WithoutResolvedKeys(cat, ls[1..], gone);
    }
  }

  /** Deleting, one by one, every line get_lines yields leaves exactly the
      lines whose item no longer resolves. */
  lemma DeletingVisibleLeavesOrphans(cat: Catalogue, ls: seq<Line>)
    ensures PurgeAll(ls, Visible(cat, ls)) == Orphans(cat, ls)
  {
    var vis := Visible(cat, ls);
    PurgeAllWithout(ls, vis);
    forall l | l in ls
      ensures l.Key() in KeySet(vis) <==> cat.resolves(l.item)
    {
      if l.Key() in KeySet(vis) {
        var v :| v in vis && v.Key() == l.Key();
      }
      if cat.resolves(l.item) {
        assert l in vis;
      }
    }
    WithoutResolvedKeys(cat, ls, KeySet(vis));
  }

  /** What save_to leaves in the target: its orphaned rows followed by a
      copy of the source's visible lines. Seen through get_lines, that is
      exactly the source's lines in the source's order, and the result
      is duplicate-free whenever both sides were. */
  lemma MaterializedLines(cat: Catalogue, target: seq<Line>, source: seq<Line>)
    requires KeysUnique(target) && KeysUnique(source)
    ensures Visible(cat, Orphans(cat, target) + Visible(cat, source)) == Visible(cat, source)
    ensures KeysUnique(Orphans(cat, target) + Visible(cat, source))
  {
    var o, v := Orphans(cat, target), Visible(cat, source);
    VisibleAppend(cat, o, v);
    NothingVisible(cat, o);
    VisibleIdempotent(cat, source);
    assert [] + v == v;
    OrphansUnique(cat, target);
    VisibleUnique(cat, source);
    forall l | l in o
      ensures !HasKey(v, l.Key())
    {
      forall i | 0 <= i < |v|
        ensures v[i].Key() != l.Key()
      {
        assert v[i] in v;
      }
    }
    UniqueAppend(o, v);
  }
}
