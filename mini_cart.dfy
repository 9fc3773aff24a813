/**
 * The mini cart of the browser script: a list of entries kept in the page, one per
 * product and size, with `addToCart`, `removeItem` and the total `renderCart` shows.
 * Prices are whole pesos.
 */
module MiniCart {
  import opened Wrappers

  /** The product a "buy" button passes to `UrbanCart.add`. */
  datatype Product = Product(id: int, size: string, title: string, price: int, image: string)

  /** `{ ...product, qty }`. */
  datatype CartEntry = CartEntry(product: Product, qty: int)

  /** The key `addToCart` looks an entry up by: `i.id === product.id && i.size === product.size`. */
  predicate SameKey(e: CartEntry, p: Product) {
    e.product.id == p.id && e.product.size == p.size
  }

  /** No two entries share a product id and size. */
  predicate UniqueKeys(cart: seq<CartEntry>) {
    forall i, j :: 0 <= i < j < |cart| ==> !SameKey(cart[i], cart[j].product)
  }

  /** `cart.find(...)`, as the index of the first entry with the key of `p`. */
  function FindEntry(cart: seq<CartEntry>, p: Product): (k: Option<nat>)
    ensures k.Some? ==> k.value < |cart| && SameKey(cart[k.value], p)
                        && forall j :: 0 <= j < k.value ==> !SameKey(cart[j], p)
    ensures k.None? ==> forall j :: 0 <= j < |cart| ==> !SameKey(cart[j], p)
  {
    if cart == [] then None
    else if SameKey(cart[0], p) then Some(0)
    else
      match FindEntry(cart[1..], p)
      case Some(k) => Some(k + 1)
      case None => None
  }

  /** The cart after `addToCart(p)`: one more of an entry with the same key, else a new entry of one. */
  function AddedTo(cart: seq<CartEntry>, p: Product): seq<CartEntry> {
    match FindEntry(cart, p)
    case Some(k) => cart[k := cart[k].(qty := cart[k].qty + 1)]
    case None => cart + [CartEntry(p, 1)]
  }

  /** Where `splice(index, 1)` removes: a negative index counts from the end. */
  function SpliceStart(len: nat, index: int): (start: nat)
    ensures start <= len
  {
    if index < 0 then (if len + index < 0 then 0 else len + index)
    else if index > len then len else index
  }

  /** The cart after `removeItem(index)`: `cart.splice(index, 1)`. */
  function Spliced(cart: seq<CartEntry>, index: int): (r: seq<CartEntry>)
    ensures var start := SpliceStart(|cart|, index);
            && (start < |cart| ==> |r| == |cart| - 1)
            && (start == |cart| ==> r == cart)
            && (forall j :: 0 <= j < start && j < |r| ==> r[j] == cart[j])
            && (forall j :: start <= j < |r| ==> r[j] == cart[j + 1])
  {
    var start := SpliceStart(|cart|, index);
    if start < |cart| then cart[..start] + cart[start + 1..] else cart
  }

  function Subtotal(e: CartEntry): int {
    e.product.price * e.qty
  }

  /** The sum of `item.price * item.qty` over the cart. */
  function CartTotal(cart: seq<CartEntry>): int {
    if cart == [] then 0 else CartTotal(cart[..|cart| - 1]) + Subtotal(cart[|cart| - 1])
  }

  lemma {:induction false} CartTotalConcat(a: seq<CartEntry>, b: seq<CartEntry>)
    ensures CartTotal(a + b) == CartTotal(a) + CartTotal(b)
    decreases |b|
  {
    if b == [] {
      assert a + b == a;
    } else {
      assert (a + b)[..|a + b| - 1] == a + b[..|b| - 1];
      CartTotalConcat(a, b[..|b| - 1]);
    }
  }

  lemma CartTotalSingle(e: CartEntry)
    ensures CartTotal([e]) == Subtotal(e)
  {
    assert [e][..0] == [];
  }

  /** The total of a cart split around one entry. */
  lemma CartTotalSplit(a: seq<CartEntry>, e: CartEntry, b: seq<CartEntry>)
    ensures CartTotal(a + [e] + b) == CartTotal(a) + Subtotal(e) + CartTotal(b)
  {
    CartTotalConcat(a + [e], b);
    CartTotalConcat(a, [e]);
    CartTotalSingle(e);
  }

  /** Replacing one entry changes the total by the difference of the two subtotals. */
  lemma CartTotalUpdate(cart: seq<CartEntry>, k: nat, e: CartEntry)
    requires k < |cart|
    ensures CartTotal(cart[k := e]) == CartTotal(cart) - Subtotal(cart[k]) + Subtotal(e)
  {
    var a, b := cart[..k], cart[k + 1..];
    assert cart[k := e] == a + [e] + b;
    assert cart == a + [cart[k]] + b;
    CartTotalSplit(a, e, b);
    CartTotalSplit(a, cart[k], b);
  }

  /**
   * `addToCart`: the entry with the key of `p` gains one, every other entry is unchanged and
   * the length stays; without such an entry one entry of `p` with quantity 1 is appended.
   */
  lemma AddedToEffect(cart: seq<CartEntry>, p: Product)
    ensures var r := AddedTo(cart, p);
            && ((exists j :: 0 <= j < |cart| && SameKey(cart[j], p)) ==>
                  && |r| == |cart|
                  && exists k :: 0 <= k < |cart| && SameKey(cart[k], p) && r[k].qty == cart[k].qty + 1
                       && r[k].product == cart[k].product
                       && forall j :: 0 <= j < |cart| && j != k ==> r[j] == cart[j])
            && ((forall j :: 0 <= j < |cart| ==> !SameKey(cart[j], p)) ==> r == cart + [CartEntry(p, 1)])
  {
    match FindEntry(cart, p)
    case Some(k) =>
      var r := AddedTo(cart, p);
      assert SameKey(cart[k], p) && r[k].qty == cart[k].qty + 1;
    case None =>
  }

  /** Adding never creates a second entry for a key. */
  lemma AddedToKeepsKeysUnique(cart: seq<CartEntry>, p: Product)
    requires UniqueKeys(cart)
    ensures UniqueKeys(AddedTo(cart, p))
  {
    var r := AddedTo(cart, p);
    match FindEntry(cart, p)
    case Some(k) =>
      forall i, j | 0 <= i < j < |r| ensures !SameKey(r[i], r[j].product) {
        assert r[i].product == cart[i].product && r[j].product == cart[j].product;
      }
    case None =>
      forall i, j | 0 <= i < j < |r| ensures !SameKey(r[i], r[j].product) {
        if j == |cart| {
          assert r[j].product == p;
        } else {
          assert r[j] == cart[j];
        }
      }
  }

  /** One more of an entry adds its price to its subtotal. */
  lemma SubtotalOneMore(e: CartEntry)
    ensures Subtotal(e.(qty := e.qty + 1)) == Subtotal(e) + e.product.price
  {
    calc {
      Subtotal(e.(qty := e.qty + 1));
      e.product.price * (e.qty + 1);
      e.product.price * e.qty + e.product.price;
    }
  }

  /** Adding raises the total by the price of the entry that gained one. */
  lemma {:induction false} AddedToTotal(cart: seq<CartEntry>, p: Product)
    ensures CartTotal(AddedTo(cart, p)) ==
              CartTotal(cart) + (match FindEntry(cart, p) case Some(k) => cart[k].product.price case None => p.price)
  {
    match FindEntry(cart, p)
    case Some(k) =>
      var e := cart[k];
      CartTotalUpdate(cart, k, e.(qty := e.qty + 1));
      SubtotalOneMore(e);
    case None =>
      CartTotalConcat(cart, [CartEntry(p, 1)]);
      CartTotalSingle(CartEntry(p, 1));
  }

  lemma CartTotalRemove(cart: seq<CartEntry>, k: nat)
    requires k < |cart|
    ensures CartTotal(cart[..k] + cart[k + 1..]) == CartTotal(cart) - Subtotal(cart[k])
  {
    var a, e, b := cart[..k], cart[k], cart[k + 1..];
    assert cart == a + [e] + b;
    var t := CartTotal(a + [e] + b);
    CartTotalSplit(a, e, b);
    CartTotalConcat(a, b);
    assert CartTotal(cart) == t;
  }

  /** Removing drops exactly the subtotal of the removed entry. */
  lemma SplicedTotal(cart: seq<CartEntry>, index: int)
    requires SpliceStart(|cart|, index) < |cart|
    ensures CartTotal(Spliced(cart, index)) == CartTotal(cart) - Subtotal(cart[SpliceStart(|cart|, index)])
  {
    CartTotalRemove(cart, SpliceStart(|cart|, index));
  }

  /** Removing keeps the keys unique. */
  lemma SplicedKeepsKeysUnique(cart: seq<CartEntry>, index: int)
    requires UniqueKeys(cart)
    ensures UniqueKeys(Spliced(cart, index))
  {
    var start := SpliceStart(|cart|, index);
    var r := Spliced(cart, index);
    forall i, j | 0 <= i < j < |r| ensures !SameKey(r[i], r[j].product) {
      var i' := if i < start then i else i + 1;
      var j' := if j < start then j else j + 1;
      assert r[i] == cart[i'] && r[j] == cart[j'];
    }
  }

  /** The cart of the page. */
  class Cart {
    var entries: seq<CartEntry>

    /** `JSON.parse(localStorage.getItem("urban_cart")) || []`: `saved` is None when nothing is stored. */
    constructor(saved: Option<seq<CartEntry>>)
      ensures entries == saved.GetOr([])
    {
      entries := saved.GetOr([]);
    }

    /** `addToCart(product)`. */
    method AddToCart(p: Product)
      modifies this
      ensures entries == AddedTo(old(entries), p)
      ensures UniqueKeys(old(entries)) ==> UniqueKeys(entries)
    {
      ghost var before := entries;
      if UniqueKeys(before) {
        AddedToKeepsKeysUnique(before, p);
      }
      var existing := FindEntry(entries, p);
      if existing.Some? {
        var k := existing.value;
        entries := entries[k := entries[k].(qty := entries[k].qty + 1)];
      } else {
        entries := entries + [CartEntry(p, 1)];
      }
    }

    /** `removeItem(index)`. */
    method RemoveItem(index: int)
      modifies this
      ensures entries == Spliced(old(entries), index)
      ensures UniqueKeys(old(entries)) ==> UniqueKeys(entries)
    {
      ghost var before := entries;
      if UniqueKeys(before) {
        SplicedKeepsKeysUnique(before, index);
      }
      var start := SpliceStart(|entries|, index);
      if start < |entries| {
        entries := entries[..start] + entries[start + 1..];
      }
    }

    /** The `total +=` loop of `renderCart`. */
    method Total() returns (total: int)
      ensures total == CartTotal(entries)
    {
      total := 0;
      var i := 0;
      while i < |entries|
        invariant 0 <= i <= |entries|
        invariant total == CartTotal(entries[..i])
      {
        assert entries[..i + 1][..i] == entries[..i];
        total := total + entries[i].product.price * entries[i].qty;
        i := i + 1;
      }
      assert entries[..i] == entries;
    }
  }
}
