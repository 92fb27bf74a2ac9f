/** The product table of an order: product name to price, with the two mutation rules
    (no duplicate insert, no removal of a missing name) and the exact subtotal. */
module ProductTable {
  import opened Results

  type Products = map<string, real>

  /** Adding a product succeeds only when its name is not already present. */
  function Add(m: Products, name: string, price: real): (r: Result<Products>)
    ensures r.Failure? <==> name in m
    ensures r.Failure? ==> r.error == DuplicateProduct
    ensures r.Success? ==> r.value.Keys == m.Keys + {name} && r.value[name] == price
    ensures r.Success? ==> forall k :: k in m ==> r.value[k] == m[k]
  {
    if name in m then Failure(DuplicateProduct) else Success(m[name := price])
  }

  /** Removing a product succeeds only when its name is present. */
  function Remove(m: Products, name: string): (r: Result<Products>)
    ensures r.Failure? <==> name !in m
    ensures r.Failure? ==> r.error == ProductNotFound
    ensures r.Success? ==> r.value.Keys == m.Keys - {name}
    ensures r.Success? ==> forall k :: k in r.value ==> r.value[k] == m[k]
  {
    if name !in m then Failure(ProductNotFound) else Success(m - {name})
  }

  /** Adding a new name and then removing it gives back the original table. */
  lemma AddThenRemove(m: Products, name: string, price: real)
    requires name !in m
    ensures Add(m, name, price).Success?
    ensures Remove(Add(m, name, price).value, name) == Success(m)
  {
    var added := Add(m, name, price).value;
    assert added - {name} == m;
  }

  /** Removing a name and then adding it back with its old price gives back the original table. */
  lemma RemoveThenAdd(m: Products, name: string)
    requires name in m
    ensures Remove(m, name).Success?
    ensures Add(Remove(m, name).value, name, m[name]) == Success(m)
  {
    var removed := Remove(m, name).value;
    assert removed[name := m[name]] == m;
  }

  /** The sum of all prices in the table (Ruby: products.values.sum), exact. */
  ghost function Subtotal(m: Products): real
    decreases |m|
  {
    if |m| == 0 then 0.0
    else
      var k :| k in m;
      assert |m - {k}| == |m| - 1 by { assert (m - {k}).Keys == m.Keys - {k}; }
      m[k] + Subtotal(m - {k})
  }

  /** The subtotal does not depend on which entry is taken first: any entry can be split off. */
  lemma {:induction false} SubtotalSplit(m: Products, k: string)
    requires k in m
    ensures Subtotal(m) == m[k] + Subtotal(m - {k})
    decreases |m|
  {
    var j := PickedKey(m);
    if j != k {
      var mj, mk := m - {j}, m - {k};
      RemoveOneKey(m, j);
      RemoveOneKey(m, k);
      assert k in mj && mj[k] == m[k];
      assert j in mk && mk[j] == m[j];
      SubtotalSplit(mj, k);
      SubtotalSplit(mk, j);
      assert mj - {k} == mk - {j};
    }
  }

  /** The entry Subtotal splits off first. */
  lemma PickedKey(m: Products) returns (j: string)
    requires |m| != 0
    ensures j in m && Subtotal(m) == m[j] + Subtotal(m - {j})
  {
    j :| j in m && Subtotal(m) == m[j] + Subtotal(m - {j});
  }

  /** Taking one present key out of a table leaves one entry fewer. */
  lemma RemoveOneKey(m: Products, k: string)
    requires k in m
    ensures (m - {k}).Keys == m.Keys - {k} && |m - {k}| == |m| - 1
  {
    assert (m - {k}).Keys == m.Keys - {k};
  }

  /** Adding a product raises the subtotal by exactly its price. */
  lemma SubtotalAdd(m: Products, name: string, price: real)
    requires name !in m
    ensures Subtotal(m[name := price]) == Subtotal(m) + price
  {
    SubtotalSplit(m[name := price], name);
    assert m[name := price] - {name} == m;
  }

  /** Removing a product lowers the subtotal by exactly its price. */
  lemma SubtotalRemove(m: Products, name: string)
    requires name in m
    ensures Subtotal(m - {name}) == Subtotal(m) - m[name]
  {
    SubtotalSplit(m, name);
  }

  /** A table whose prices are all non-negative has a non-negative subtotal. */
  lemma {:induction false} SubtotalNonNegative(m: Products)
    requires forall k :: k in m ==> m[k] >= 0.0
    ensures Subtotal(m) >= 0.0
    decreases |m|
  {
    if |m| != 0 {
      var k :| k in m && Subtotal(m) == m[k] + Subtotal(m - {k});
      assert (m - {k}).Keys == m.Keys - {k};
      SubtotalNonNegative(m - {k});
    }
  }

  /** The subtotal of a one-entry table is that entry's price. */
  lemma SubtotalSingle(name: string, price: real)
    ensures Subtotal(map[name := price]) == price
  {
    SubtotalAdd(map[], name, price);
  }
}
