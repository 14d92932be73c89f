/**
 * The list algebra shared by both cart stores (src/store/cart-store-new.ts and
 * src/store/cart-store-simple.ts). A store keeps an ordered array of lines, each with an
 * id, the item it stands for and a quantity; every mutation replaces that array by a
 * `map` or `filter` of it, or appends one line, and then recomputes the total as
 * `items.reduce((sum, item) => sum + price * item.quantity, 0)`.
 *
 * The item type `P` and its unit price are parameters: the new store prices a line by
 * the integer `price` field of its data, the simple store by the product's parsed price.
 */
module CartLines {
  import opened Wrappers

  datatype Line<P> = Line(id: string, item: P, quantity: int)

  // ----- derived total -----

  /** What one line contributes to the total: unit price times quantity. */
  function Amount<P>(l: Line<P>, price: P -> int): int {
    price(l.item) * l.quantity
  }

  /** The sum of `Amount` over all lines, in array order. */
  function Total<P>(lines: seq<Line<P>>, price: P -> int): int
    decreases |lines|
  {
    if lines == [] then 0 else Amount(lines[0], price) + Total(lines[1..], price)
  }

  /** The total is additive over concatenation. */
  lemma {:induction false} TotalAppend<P>(a: seq<Line<P>>, b: seq<Line<P>>, price: P -> int)
    ensures Total(a + b, price) == Total(a, price) + Total(b, price)
    decreases |a|
  {
    if a != [] {
      assert (a + b)[0] == a[0] && (a + b)[1..] == a[1..] + b;
      TotalAppend(a[1..], b, price);
      assert Total(a + b, price) == Amount(a[0], price) + Total(a[1..] + b, price);
    } else {
      assert a + b == b;
    }
  }

  /** The left-to-right accumulation of `reduce`: adding one more line adds its amount. */
  lemma {:induction false} TotalSnoc<P>(a: seq<Line<P>>, l: Line<P>, price: P -> int)
    ensures Total(a + [l], price) == Total(a, price) + Amount(l, price)
  {
    TotalAppend(a, [l], price);
    assert [l][1..] == [];
  }

  lemma {:induction false} Distribute(u: int, q: int, d: int)
    ensures u * (q + d) == u * q + u * d
  {
  }

  /** Replacing the line at `k` changes the total by the difference of the two amounts. */
  lemma {:induction false} TotalSplice<P>(lines: seq<Line<P>>, k: nat, mid: seq<Line<P>>, price: P -> int)
    requires k < |lines|
    ensures Total(lines[..k] + mid + lines[k + 1..], price)
         == Total(lines, price) - Amount(lines[k], price) + Total(mid, price)
  {
    assert lines == lines[..k] + [lines[k]] + lines[k + 1..];
    TotalAppend(lines[..k] + [lines[k]], lines[k + 1..], price);
    TotalAppend(lines[..k], [lines[k]], price);
    TotalAppend(lines[..k] + mid, lines[k + 1..], price);
    TotalAppend(lines[..k], mid, price);
    assert [lines[k]][1..] == [];
  }

  // ----- shape of the line array -----

  predicate HasId<P>(lines: seq<Line<P>>, id: string) {
    exists i :: 0 <= i < |lines| && lines[i].id == id
  }

  /** No id appears on two lines. */
  predicate UniqueIds<P>(lines: seq<Line<P>>) {
    forall i, j :: 0 <= i < j < |lines| ==> lines[i].id != lines[j].id
  }

  /** No line is kept at a quantity of zero or below. */
  predicate AllPositive<P>(lines: seq<Line<P>>) {
    forall i :: 0 <= i < |lines| ==> lines[i].quantity > 0
  }

  /** Every line's id is `key` of the item it carries (the item's id, or a product's name). */
  predicate KeyedBy<P>(lines: seq<Line<P>>, key: P -> string) {
    forall i :: 0 <= i < |lines| ==> lines[i].id == key(lines[i].item)
  }

  // ----- lookups -----

  /** `items.find(item => item.id === id)`, as the index of the first line with that id. */
  function Find<P>(lines: seq<Line<P>>, id: string): (k: Option<nat>)
    ensures k.None? <==> !HasId(lines, id)
    ensures k.Some? ==> k.value < |lines| && lines[k.value].id == id
    ensures k.Some? ==> forall j :: 0 <= j < k.value ==> lines[j].id != id
    decreases |lines|
  {
    if lines == [] then None
    else if lines[0].id == id then Some(0)
    else match Find(lines[1..], id)
      case None => None
      case Some(k) => Some(k + 1)
  }

  /** `getItemQuantity`: the quantity of the first line with that id, or 0 when there is none. */
  function QuantityOf<P>(lines: seq<Line<P>>, id: string): (q: int)
    ensures !HasId(lines, id) ==> q == 0
    ensures forall k :: 0 <= k < |lines| && lines[k].id == id && (forall j :: 0 <= j < k ==> lines[j].id != id) ==>
              q == lines[k].quantity
    ensures UniqueIds(lines) ==> forall k :: 0 <= k < |lines| && lines[k].id == id ==> q == lines[k].quantity
  {
    match Find(lines, id)
    case None => 0
    case Some(k) => lines[k].quantity
  }

  /** Two arrays with the same ids in the same positions answer every `find` alike. */
  lemma {:induction false} FindSameIds<P>(a: seq<Line<P>>, b: seq<Line<P>>, id: string)
    requires |a| == |b| && forall i :: 0 <= i < |a| ==> a[i].id == b[i].id
    ensures Find(a, id) == Find(b, id)
    decreases |a|
  {
    if a != [] && a[0].id != id {
      FindSameIds(a[1..], b[1..], id);
    }
  }

  // ----- the `map` updates -----

  /** `items.map(item => item.id === id ? { ...item, quantity: item.quantity + delta } : item)`. */
  function Bump<P>(lines: seq<Line<P>>, id: string, delta: int): (r: seq<Line<P>>)
    ensures |r| == |lines|
    ensures forall i :: 0 <= i < |lines| ==> r[i].id == lines[i].id && r[i].item == lines[i].item
    ensures forall i :: 0 <= i < |lines| ==>
              r[i].quantity == lines[i].quantity + (if lines[i].id == id then delta else 0)
    decreases |lines|
  {
    if lines == [] then []
    else
      var head := if lines[0].id == id then lines[0].(quantity := lines[0].quantity + delta) else lines[0];
      [head] + Bump(lines[1..], id, delta)
  }

  /** Bumping an id that no line carries changes nothing. */
  lemma {:induction false} BumpAbsent<P>(lines: seq<Line<P>>, id: string, delta: int)
    requires !HasId(lines, id)
    ensures Bump(lines, id, delta) == lines
  {
    var r := Bump(lines, id, delta);
    assert forall i :: 0 <= i < |lines| ==> r[i] == lines[i];
  }

  /** With unique ids, bumping touches exactly the one line that carries the id. */
  lemma {:induction false} BumpAt<P>(lines: seq<Line<P>>, id: string, delta: int, k: nat)
    requires UniqueIds(lines) && k < |lines| && lines[k].id == id
    ensures Bump(lines, id, delta)
         == lines[..k] + [lines[k].(quantity := lines[k].quantity + delta)] + lines[k + 1..]
  {
    var r := Bump(lines, id, delta);
    var s := lines[..k] + [lines[k].(quantity := lines[k].quantity + delta)] + lines[k + 1..];
    assert |r| == |s|;
    forall i | 0 <= i < |r| ensures r[i] == s[i] {
      if i != k {
        assert lines[i].id != id;
      }
    }
  }

  /** Bumping keeps ids, so it keeps them unique. */
  lemma {:induction false} BumpUnique<P>(lines: seq<Line<P>>, id: string, delta: int)
    requires UniqueIds(lines)
    ensures UniqueIds(Bump(lines, id, delta))
  {
  }

  /** Bumping keeps each line's item, so lines stay keyed by it. */
  lemma BumpKeyedBy<P>(lines: seq<Line<P>>, id: string, delta: int, key: P -> string)
    requires KeyedBy(lines, key)
    ensures KeyedBy(Bump(lines, id, delta), key)
  {
  }

  /** After a bump, the bumped id reads `delta` more and every other id reads the same. */
  lemma {:induction false} BumpQuantity<P>(lines: seq<Line<P>>, id: string, delta: int, other: string)
    requires HasId(lines, id) && other != id
    ensures QuantityOf(Bump(lines, id, delta), id) == QuantityOf(lines, id) + delta
    ensures QuantityOf(Bump(lines, id, delta), other) == QuantityOf(lines, other)
  {
    var r := Bump(lines, id, delta);
    FindSameIds(r, lines, id);
    FindSameIds(r, lines, other);
  }

  /** The per-line step of `decrementItem`: one unit less on a positive line with that id. */
  function DecrementOne<P>(l: Line<P>, id: string): Line<P> {
    if l.id == id && l.quantity > 0 then l.(quantity := l.quantity - 1) else l
  }

  /** `items.map(item => item.id === id && item.quantity > 0 ? { ...item, quantity: item.quantity - 1 } : item)`. */
  function MapDecrement<P>(lines: seq<Line<P>>, id: string): (r: seq<Line<P>>)
    ensures |r| == |lines|
    ensures forall i :: 0 <= i < |lines| ==> r[i] == DecrementOne(lines[i], id)
    decreases |lines|
  {
    if lines == [] then [] else [DecrementOne(lines[0], id)] + MapDecrement(lines[1..], id)
  }

  // ----- the `filter` updates -----

  /** `.filter(item => item.quantity > 0)`. */
  function KeepPositive<P>(lines: seq<Line<P>>): (r: seq<Line<P>>)
    ensures AllPositive(r) && |r| <= |lines|
    decreases |lines|
  {
    if lines == [] then []
    else if lines[0].quantity > 0 then [lines[0]] + KeepPositive(lines[1..])
    else KeepPositive(lines[1..])
  }

  /** The filter keeps exactly the positive lines: nothing else survives and none is lost. */
  lemma {:induction false} KeepPositiveElements<P>(lines: seq<Line<P>>)
    ensures forall i :: 0 <= i < |KeepPositive(lines)| ==> KeepPositive(lines)[i] in lines
    ensures forall i :: 0 <= i < |lines| && lines[i].quantity > 0 ==> lines[i] in KeepPositive(lines)
    decreases |lines|
  {
    if lines != [] {
      KeepPositiveElements(lines[1..]);
      assert lines == [lines[0]] + lines[1..];
    }
  }

  lemma {:induction false} KeepPositiveAppend<P>(a: seq<Line<P>>, b: seq<Line<P>>)
    ensures KeepPositive(a + b) == KeepPositive(a) + KeepPositive(b)
    decreases |a|
  {
    if a != [] {
      assert (a + b)[0] == a[0] && (a + b)[1..] == a[1..] + b;
      KeepPositiveAppend(a[1..], b);
      if a[0].quantity > 0 {
        calc {
          KeepPositive(a + b);
          [a[0]] + KeepPositive(a[1..] + b);
          [a[0]] + (KeepPositive(a[1..]) + KeepPositive(b));
          ([a[0]] + KeepPositive(a[1..])) + KeepPositive(b);
        }
      } else {
        calc {
          KeepPositive(a + b);
          KeepPositive(a[1..] + b);
        }
      }
    } else {
      assert a + b == b;
    }
  }

  lemma {:induction false} KeepPositiveOfPositive<P>(lines: seq<Line<P>>)
    requires AllPositive(lines)
    ensures KeepPositive(lines) == lines
    decreases |lines|
  {
    if lines != [] {
      KeepPositiveOfPositive(lines[1..]);
    }
  }

  /** `.filter(item => item.id !== id)`. */
  function RemoveLine<P>(lines: seq<Line<P>>, id: string): (r: seq<Line<P>>)
    ensures !HasId(r, id) && |r| <= |lines|
    decreases |lines|
  {
    if lines == [] then []
    else if lines[0].id != id then [lines[0]] + RemoveLine(lines[1..], id)
    else RemoveLine(lines[1..], id)
  }

  /** The filter keeps exactly the lines with another id: nothing else survives and none is lost. */
  lemma {:induction false} RemoveLineElements<P>(lines: seq<Line<P>>, id: string)
    ensures forall i :: 0 <= i < |RemoveLine(lines, id)| ==> RemoveLine(lines, id)[i] in lines
    ensures forall i :: 0 <= i < |lines| && lines[i].id != id ==> lines[i] in RemoveLine(lines, id)
    decreases |lines|
  {
    if lines != [] {
      RemoveLineElements(lines[1..], id);
      assert lines == [lines[0]] + lines[1..];
    }
  }

  /** Removal only drops lines, so every surviving quantity stays positive. */
  lemma RemovePositive<P>(lines: seq<Line<P>>, id: string)
    requires AllPositive(lines)
    ensures AllPositive(RemoveLine(lines, id))
  {
    RemoveLineElements(lines, id);
  }

  /** Removal only drops lines, so the survivors stay keyed by their items. */
  lemma RemoveLineKeyedBy<P>(lines: seq<Line<P>>, id: string, key: P -> string)
    requires KeyedBy(lines, key)
    ensures KeyedBy(RemoveLine(lines, id), key)
  {
    RemoveLineElements(lines, id);
  }

  lemma {:induction false} RemoveLineAppend<P>(a: seq<Line<P>>, b: seq<Line<P>>, id: string)
    ensures RemoveLine(a + b, id) == RemoveLine(a, id) + RemoveLine(b, id)
    decreases |a|
  {
    if a != [] {
      assert (a + b)[0] == a[0] && (a + b)[1..] == a[1..] + b;
      RemoveLineAppend(a[1..], b, id);
      if a[0].id != id {
        calc {
          RemoveLine(a + b, id);
          [a[0]] + RemoveLine(a[1..] + b, id);
          [a[0]] + (RemoveLine(a[1..], id) + RemoveLine(b, id));
          ([a[0]] + RemoveLine(a[1..], id)) + RemoveLine(b, id);
        }
      } else {
        calc {
          RemoveLine(a + b, id);
          RemoveLine(a[1..] + b, id);
        }
      }
    } else {
      assert a + b == b;
    }
  }

  /** Removing an id no line carries changes nothing. */
  lemma {:induction false} RemoveLineAbsent<P>(lines: seq<Line<P>>, id: string)
    requires !HasId(lines, id)
    ensures RemoveLine(lines, id) == lines
    decreases |lines|
  {
    if lines != [] {
      assert !HasId(lines[1..], id) by {
        forall i | 0 <= i < |lines[1..]| ensures lines[1..][i].id != id {
          assert lines[1..][i] == lines[i + 1];
        }
      }
      RemoveLineAbsent(lines[1..], id);
    }
  }

  /** Removing one id leaves what every other id reads untouched. */
  lemma {:induction false} RemoveLineOtherQuantity<P>(lines: seq<Line<P>>, id: string, other: string)
    requires other != id
    ensures QuantityOf(RemoveLine(lines, id), other) == QuantityOf(lines, other)
    decreases |lines|
  {
    if lines != [] {
      RemoveLineOtherQuantity(lines[1..], id, other);
      var r := RemoveLine(lines, id);
      if lines[0].id != id {
        assert r == [lines[0]] + RemoveLine(lines[1..], id);
        QuantityOfCons(lines[0], RemoveLine(lines[1..], id), other);
      }
      QuantityOfCons(lines[0], lines[1..], other);
      assert [lines[0]] + lines[1..] == lines;
    }
  }

  /** `find` looks at the first line before the rest. */
  lemma {:induction false} QuantityOfCons<P>(head: Line<P>, tail: seq<Line<P>>, id: string)
    ensures QuantityOf([head] + tail, id) == if head.id == id then head.quantity else QuantityOf(tail, id)
  {
    var s := [head] + tail;
    assert s[1..] == tail;
  }

  /** Uniqueness is kept by every subsequence; the ids at both ends of a split are disjoint. */
  lemma {:induction false} UniqueSplit<P>(lines: seq<Line<P>>, k: nat)
    requires UniqueIds(lines) && k < |lines|
    ensures !HasId(lines[..k], lines[k].id) && !HasId(lines[k + 1..], lines[k].id)
  {
    forall i | 0 <= i < k ensures lines[..k][i].id != lines[k].id {
      assert lines[..k][i] == lines[i];
    }
    var tail := lines[k + 1..];
    forall i | 0 <= i < |tail| ensures tail[i].id != lines[k].id {
      assert tail[i] == lines[k + 1 + i];
    }
  }

  /** `find` on an array with one more line at the end. */
  lemma {:induction false} FindSnoc<P>(lines: seq<Line<P>>, l: Line<P>, id: string)
    ensures Find(lines + [l], id)
         == if HasId(lines, id) then Find(lines, id) else if l.id == id then Some(|lines|) else None
  {
    var s := lines + [l];
    if HasId(lines, id) {
      var k := Find(lines, id).value;
      assert s[k] == lines[k];
    } else if l.id == id {
      assert s[|lines|] == l;
    } else {
      assert !HasId(s, id) by {
        forall i | 0 <= i < |s| ensures s[i].id != id {
          if i < |lines| {
            assert s[i] == lines[i];
          }
        }
      }
    }
  }

  lemma {:induction false} KeepPositiveUnique<P>(lines: seq<Line<P>>)
    requires UniqueIds(lines)
    ensures UniqueIds(KeepPositive(lines))
    decreases |lines|
  {
    if lines != [] {
      var rest := KeepPositive(lines[1..]);
      KeepPositiveUnique(lines[1..]);
      KeepPositiveElements(lines[1..]);
      forall j | 0 <= j < |rest| ensures rest[j].id != lines[0].id {
        var m :| 0 <= m < |lines[1..]| && lines[1..][m] == rest[j];
        assert lines[m + 1] == rest[j];
      }
    }
  }

  lemma {:induction false} RemoveLineUnique<P>(lines: seq<Line<P>>, id: string)
    requires UniqueIds(lines)
    ensures UniqueIds(RemoveLine(lines, id))
    decreases |lines|
  {
    if lines != [] {
      var rest := RemoveLine(lines[1..], id);
      RemoveLineUnique(lines[1..], id);
      RemoveLineElements(lines[1..], id);
      forall j | 0 <= j < |rest| ensures rest[j].id != lines[0].id {
        var m :| 0 <= m < |lines[1..]| && lines[1..][m] == rest[j];
        assert lines[m + 1] == rest[j];
      }
    }
  }

  // ----- the store operations on the line array -----

  /**
   * `addItem(data, quantity)`: when a line with that id exists, add `quantity` to it (the
   * line keeps its own item data); otherwise append a new line.
   */
  function AddLine<P>(lines: seq<Line<P>>, id: string, item: P, quantity: int): (r: seq<Line<P>>)
    ensures HasId(r, id)
  {
    assert (lines + [Line(id, item, quantity)])[|lines|].id == id;
    if Find(lines, id).Some? then Bump(lines, id, quantity) else lines + [Line(id, item, quantity)]
  }

  /** Adding to an existing id changes that line's quantity only; order and length are kept. */
  lemma {:induction false} AddLineExisting<P>(lines: seq<Line<P>>, id: string, item: P, quantity: int, k: nat, price: P -> int)
    requires UniqueIds(lines) && k < |lines| && lines[k].id == id
    ensures AddLine(lines, id, item, quantity)
         == lines[..k] + [lines[k].(quantity := lines[k].quantity + quantity)] + lines[k + 1..]
    ensures Total(AddLine(lines, id, item, quantity), price) == Total(lines, price) + price(lines[k].item) * quantity
  {
    BumpAt(lines, id, quantity, k);
    var l := lines[k].(quantity := lines[k].quantity + quantity);
    TotalSplice(lines, k, [l], price);
    assert Total([l], price) == Amount(l, price) by { assert [l][1..] == []; }
    assert Amount(l, price) == Amount(lines[k], price) + price(lines[k].item) * quantity;
  }

  /** Adding a new id appends exactly one line, at the end. */
  lemma {:induction false} AddLineNew<P>(lines: seq<Line<P>>, id: string, item: P, quantity: int, price: P -> int)
    requires !HasId(lines, id)
    ensures AddLine(lines, id, item, quantity) == lines + [Line(id, item, quantity)]
    ensures Total(AddLine(lines, id, item, quantity), price) == Total(lines, price) + price(item) * quantity
  {
    TotalSnoc(lines, Line(id, item, quantity), price);
  }

  /** `addItem` keeps ids unique: an existing id is bumped in place, a new one appended. */
  lemma {:induction false} AddLineUnique<P>(lines: seq<Line<P>>, id: string, item: P, quantity: int)
    requires UniqueIds(lines)
    ensures UniqueIds(AddLine(lines, id, item, quantity))
  {
    if HasId(lines, id) {
      BumpUnique(lines, id, quantity);
    } else {
      var l := Line(id, item, quantity);
      var r := lines + [l];
      forall i, j | 0 <= i < j < |r| ensures r[i].id != r[j].id {
        assert r[i] == lines[i];
        if j < |lines| {
          assert r[j] == lines[j];
        }
      }
    }
  }

  /** Adding a positive quantity keeps every quantity positive. */
  lemma {:induction false} AddLinePositive<P>(lines: seq<Line<P>>, id: string, item: P, quantity: int)
    requires AllPositive(lines) && quantity > 0
    ensures AllPositive(AddLine(lines, id, item, quantity))
  {
    if !HasId(lines, id) {
      var r := lines + [Line(id, item, quantity)];
      forall i | 0 <= i < |r| ensures r[i].quantity > 0 {
        if i < |lines| {
          assert r[i] == lines[i];
        }
      }
    }
  }

  /**
   * Whatever the case, `addItem` raises the quantity read for `id` by exactly `quantity`
   * and leaves every other id's quantity alone.
   */
  lemma {:induction false} AddLineQuantity<P>(lines: seq<Line<P>>, id: string, item: P, quantity: int, other: string)
    requires other != id
    ensures QuantityOf(AddLine(lines, id, item, quantity), id) == QuantityOf(lines, id) + quantity
    ensures QuantityOf(AddLine(lines, id, item, quantity), other) == QuantityOf(lines, other)
  {
    if HasId(lines, id) {
      BumpQuantity(lines, id, quantity, other);
    } else {
      var l := Line(id, item, quantity);
      FindSnoc(lines, l, id);
      FindSnoc(lines, l, other);
    }
  }

  /** `incrementItem` on an absent id leaves the lines as they were. */
  lemma {:induction false} IncrementAbsent<P>(lines: seq<Line<P>>, id: string)
    requires !HasId(lines, id)
    ensures Bump(lines, id, 1) == lines
  {
    BumpAbsent(lines, id, 1);
  }

  /** `incrementItem` keeps every quantity positive. */
  lemma IncrementPositive<P>(lines: seq<Line<P>>, id: string)
    requires AllPositive(lines)
    ensures AllPositive(Bump(lines, id, 1))
  {
  }

  /**
   * `decrementItem`: one unit less on the lines with that id, then every line at zero or
   * below is dropped, whatever its id.
   */
  function DecrementLine<P>(lines: seq<Line<P>>, id: string): (r: seq<Line<P>>)
    ensures AllPositive(r)
  {
    KeepPositive(MapDecrement(lines, id))
  }

  /** Decrementing changes only quantities and drops lines, so ids stay unique. */
  lemma DecrementLineUnique<P>(lines: seq<Line<P>>, id: string)
    requires UniqueIds(lines)
    ensures UniqueIds(DecrementLine(lines, id))
  {
    var m := MapDecrement(lines, id);
    assert UniqueIds(m) by {
      forall i, j | 0 <= i < j < |m| ensures m[i].id != m[j].id {
        assert m[i].id == lines[i].id && m[j].id == lines[j].id;
      }
    }
    KeepPositiveUnique(m);
  }

  /** Decrementing keeps each surviving line's item, so lines stay keyed by it. */
  lemma DecrementLineKeyedBy<P>(lines: seq<Line<P>>, id: string, key: P -> string)
    requires KeyedBy(lines, key)
    ensures KeyedBy(DecrementLine(lines, id), key)
  {
    var m := MapDecrement(lines, id);
    assert KeyedBy(m, key);
    KeepPositiveElements(m);
  }

  /** The decremented line, if it survives, between the untouched lines before and after it. */
  function Survivor<P>(l: Line<P>): seq<Line<P>> {
    if l.quantity > 1 then [l.(quantity := l.quantity - 1)] else []
  }

  /** With unique ids, the per-line decrement touches only the line at `k`. */
  lemma {:induction false} MapDecrementSplice<P>(lines: seq<Line<P>>, id: string, k: nat)
    requires UniqueIds(lines) && k < |lines| && lines[k].id == id
    ensures MapDecrement(lines, id) == lines[..k] + [DecrementOne(lines[k], id)] + lines[k + 1..]
  {
    var m := MapDecrement(lines, id);
    var s := lines[..k] + [DecrementOne(lines[k], id)] + lines[k + 1..];
    forall i | 0 <= i < |m| ensures m[i] == s[i] {
      if i < k {
        assert lines[i].id != id;
      } else if i > k {
        assert lines[i].id != id;
      }
    }
  }

  /** Both sides of a position in a positive array are positive. */
  lemma {:induction false} AllPositiveSlices<P>(lines: seq<Line<P>>, k: nat)
    requires AllPositive(lines) && k < |lines|
    ensures AllPositive(lines[..k]) && AllPositive(lines[k + 1..])
  {
    forall i | 0 <= i < k ensures lines[..k][i].quantity > 0 {
      assert lines[..k][i] == lines[i];
    }
    var post := lines[k + 1..];
    forall i | 0 <= i < |post| ensures post[i].quantity > 0 {
      assert post[i] == lines[k + 1 + i];
    }
  }

  /** Filtering around one line only decides that line when its neighbours are positive. */
  lemma {:induction false} KeepPositiveAround<P>(pre: seq<Line<P>>, d: Line<P>, post: seq<Line<P>>)
    requires AllPositive(pre) && AllPositive(post)
    ensures KeepPositive(pre + [d] + post) == pre + (if d.quantity > 0 then [d] else []) + post
  {
    KeepPositiveAppend(pre + [d], post);
    KeepPositiveAppend(pre, [d]);
    KeepPositiveOfPositive(pre);
    KeepPositiveOfPositive(post);
    assert [d][1..] == [];
  }

  lemma {:induction false} DecrementLineSplice<P>(lines: seq<Line<P>>, id: string, k: nat)
    requires AllPositive(lines) && UniqueIds(lines) && k < |lines| && lines[k].id == id
    ensures DecrementLine(lines, id) == lines[..k] + Survivor(lines[k]) + lines[k + 1..]
  {
    MapDecrementSplice(lines, id, k);
    AllPositiveSlices(lines, k);
    KeepPositiveAround(lines[..k], DecrementOne(lines[k], id), lines[k + 1..]);
  }

  /** The id of the line at `k` is on no other line. */
  lemma {:induction false} UniqueWithout<P>(lines: seq<Line<P>>, k: nat)
    requires UniqueIds(lines) && k < |lines|
    ensures !HasId(lines[..k] + lines[k + 1..], lines[k].id)
  {
    UniqueSplit(lines, k);
    var r := lines[..k] + lines[k + 1..];
    forall i | 0 <= i < |r| ensures r[i].id != lines[k].id {
      if i < k {
        assert r[i] == lines[..k][i];
      } else {
        assert r[i] == lines[k + 1..][i - k];
      }
    }
  }

  /**
   * On a cart whose quantities are positive and ids unique, decrementing the line at `k`
   * lowers it by one in place, or removes it when it was at 1; the rest keep their order.
   */
  lemma {:induction false} DecrementLineAt<P>(lines: seq<Line<P>>, id: string, k: nat)
    requires AllPositive(lines) && UniqueIds(lines) && k < |lines| && lines[k].id == id
    ensures lines[k].quantity > 1 ==>
              DecrementLine(lines, id) == lines[..k] + [lines[k].(quantity := lines[k].quantity - 1)] + lines[k + 1..]
    ensures lines[k].quantity == 1 ==> DecrementLine(lines, id) == lines[..k] + lines[k + 1..]
    ensures UniqueIds(DecrementLine(lines, id))
  {
    DecrementLineSplice(lines, id, k);
    KeepPositiveUnique(MapDecrement(lines, id));
    if lines[k].quantity == 1 {
      assert lines[..k] + [] + lines[k + 1..] == lines[..k] + lines[k + 1..];
    }
  }

  /** The decremented line's quantity is one less; a line at 1 is gone and counts as 0. */
  lemma {:induction false} DecrementLineQuantity<P>(lines: seq<Line<P>>, id: string, k: nat)
    requires AllPositive(lines) && UniqueIds(lines) && k < |lines| && lines[k].id == id
    ensures QuantityOf(DecrementLine(lines, id), id) == lines[k].quantity - 1
  {
    var r := DecrementLine(lines, id);
    DecrementLineAt(lines, id, k);
    if lines[k].quantity == 1 {
      UniqueWithout(lines, k);
    } else {
      assert r[k].id == id;
    }
  }

  /** The total of what survives of a positive line: one unit price less than the line. */
  lemma {:induction false} SurvivorTotal<P>(l: Line<P>, price: P -> int)
    requires l.quantity > 0
    ensures Total(Survivor(l), price) == Amount(l, price) - price(l.item)
  {
    var u, q := price(l.item), l.quantity;
    if q > 1 {
      var s := Survivor(l);
      assert s[1..] == [];
      assert Total(s, price) == u * (q - 1);
      Distribute(u, q, -1);
    } else {
      assert u * q == u;
    }
  }

  /** Under the same conditions the total drops by exactly one unit price. */
  lemma {:induction false} DecrementLineTotal<P>(lines: seq<Line<P>>, id: string, k: nat, price: P -> int)
    requires AllPositive(lines) && UniqueIds(lines) && k < |lines| && lines[k].id == id
    ensures Total(DecrementLine(lines, id), price) == Total(lines, price) - price(lines[k].item)
  {
    DecrementLineSplice(lines, id, k);
    TotalSplice(lines, k, Survivor(lines[k]), price);
    SurvivorTotal(lines[k], price);
  }

  /** Decrementing an id no line carries only drops the lines already at zero or below. */
  lemma {:induction false} DecrementLineAbsent<P>(lines: seq<Line<P>>, id: string)
    requires !HasId(lines, id)
    ensures DecrementLine(lines, id) == KeepPositive(lines)
    ensures AllPositive(lines) ==> DecrementLine(lines, id) == lines
  {
    var m := MapDecrement(lines, id);
    assert m == lines by {
      forall i | 0 <= i < |m| ensures m[i] == lines[i] {
        assert lines[i].id != id;
      }
    }
    if AllPositive(lines) {
      KeepPositiveOfPositive(lines);
    }
  }

  /** Filtering out an id carried by one line only, between lines without it, drops just that line. */
  lemma {:induction false} RemoveLineAround<P>(pre: seq<Line<P>>, x: Line<P>, post: seq<Line<P>>, id: string)
    requires !HasId(pre, id) && !HasId(post, id) && x.id == id
    ensures RemoveLine(pre + [x] + post, id) == pre + post
  {
    RemoveLineAppend(pre + [x], post, id);
    RemoveLineAppend(pre, [x], id);
    RemoveLineAbsent(pre, id);
    RemoveLineAbsent(post, id);
    assert [x][1..] == [];
  }

  /** `removeItem` on unique ids deletes the one line and keeps the others in order. */
  lemma {:induction false} RemoveLineSplice<P>(lines: seq<Line<P>>, id: string, k: nat)
    requires UniqueIds(lines) && k < |lines| && lines[k].id == id
    ensures RemoveLine(lines, id) == lines[..k] + lines[k + 1..]
  {
    UniqueSplit(lines, k);
    assert lines == lines[..k] + [lines[k]] + lines[k + 1..];
    RemoveLineAround(lines[..k], lines[k], lines[k + 1..], id);
  }

  /** Removing that line lowers the total by exactly its amount. */
  lemma {:induction false} RemoveLineAt<P>(lines: seq<Line<P>>, id: string, k: nat, price: P -> int)
    requires UniqueIds(lines) && k < |lines| && lines[k].id == id
    ensures RemoveLine(lines, id) == lines[..k] + lines[k + 1..]
    ensures Total(RemoveLine(lines, id), price) == Total(lines, price) - Amount(lines[k], price)
  {
    RemoveLineSplice(lines, id, k);
    TotalSplice(lines, k, [], price);
    assert lines[..k] + [] + lines[k + 1..] == lines[..k] + lines[k + 1..];
  }
}
