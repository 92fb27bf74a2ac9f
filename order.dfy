/** The Order entity: validated construction, the product-table mutations, the
    tax-inclusive total, loading orders from persisted rows and the two queries over
    the loaded orders. */
module Orders {
  import opened Results
  import opened Status
  import opened ProductTable
  import opened Money
  import opened Numerals
  import opened ProductParser

  /** The customer an order belongs to. Only its id is visible to the Order entity. */
  datatype Customer = Customer(id: int)

  /** One persisted row, its four fields still text: id, products, customer id, status. */
  datatype Row = Row(id: string, products: string, customerId: string, status: string)

  /** The flat tax rate applied to the subtotal: 7.5 %. */
  const TaxRate: real := 0.075

  class Order {
    const id: int
    var products: Products
    const customer: Customer
    const fulfillmentStatus: FulfillmentStatus

    /** Stores the four fields as given; the status is already one of the five. */
    constructor (id: int, products: Products, customer: Customer, status: FulfillmentStatus)
      ensures this.id == id && this.products == products
      ensures this.customer == customer && this.fulfillmentStatus == status
    {
      this.id := id;
      this.products := products;
      this.customer := customer;
      this.fulfillmentStatus := status;
    }

    /** initialize: a status symbol outside the five allowed ones raises; otherwise the
        new order holds exactly the given id, products, customer and status. */
    static method Create(id: int, products: Products, customer: Customer, statusSymbol: string)
      returns (r: Result<Order>)
      ensures r.Failure? <==> statusSymbol !in AllowedSymbols
      ensures r.Failure? ==> r.error == InvalidStatus
      ensures r.Success? ==> fresh(r.value)
      ensures r.Success? ==> r.value.id == id && r.value.products == products && r.value.customer == customer
      ensures r.Success? ==> SymbolName(r.value.fulfillmentStatus) == statusSymbol
    {
      var status := ParseStatus(statusSymbol);
      if status.Failure? {
        return Failure(status.error);
      }
      var order := new Order(id, products, customer, status.value);
      return Success(order);
    }

    /** total: 0 for an empty order; otherwise the subtotal with 7.5 % tax added,
        rounded once, to two decimals, on the whole amount. */
    ghost function Total(): (r: real)
      reads this
      ensures products == map[] ==> r == 0.0
      ensures products != map[] ==> r == Round2(Subtotal(products) * (1.0 + TaxRate))
      ensures products != map[] ==> Subtotal(products) * 1.075 - 0.005 <= r <= Subtotal(products) * 1.075 + 0.005
      ensures IsCents(r)
      ensures (forall k :: k in products ==> products[k] >= 0.0) ==> r >= 0.0
    {
      if |products| == 0 then 0.0
      else
        var sum := Subtotal(products);
        assert sum + sum * TaxRate == sum * (1.0 + TaxRate);
        assert (forall k :: k in products ==> products[k] >= 0.0) ==> sum >= 0.0 by {
          if forall k :: k in products ==> products[k] >= 0.0 {
            SubtotalNonNegative(products);
          }
        }
        Round2(sum + sum * TaxRate)
    }

    /** add_product: a name already present raises DuplicateProduct and changes nothing;
        otherwise the name is stored with its price and the price is returned. */
    method AddProduct(name: string, price: real) returns (r: Result<real>)
      modifies this
      ensures match Add(old(products), name, price)
              case Success(m) => r == Success(price) && products == m
              case Failure(e) => r == Failure(e) && products == old(products)
    {
      if name in products {
        return Failure(DuplicateProduct);
      }
      products := products[name := price];
      return Success(price);
    }

    /** remove_product: a name not present raises ProductNotFound and changes nothing;
        otherwise its entry is deleted and its price is returned. */
    method RemoveProduct(name: string) returns (r: Result<real>)
      modifies this
      ensures match Remove(old(products), name)
              case Success(m) => r == Success(old(products)[name]) && products == m
              case Failure(e) => r == Failure(e) && products == old(products)
    {
      if name !in products {
        return Failure(ProductNotFound);
      }
      var price := products[name];
      products := products - {name};
      return Success(price);
    }

    /** find: the first order of the loaded list with the given id, or none. */
    static function Find(all: seq<Order>, id: int): (r: Option<Order>)
      ensures r.None? <==> forall i :: 0 <= i < |all| ==> all[i].id != id
      ensures r.Some? ==> exists i :: 0 <= i < |all| && all[i] == r.value && FirstWithId(all, id, i)
    {
      if |all| == 0 then None
      else if all[0].id == id then
        assert FirstWithId(all, id, 0);
        Some(all[0])
      else
        var rest := Find(all[1..], id);
        assert rest.Some? ==> exists i :: 0 <= i < |all| && all[i] == rest.value && FirstWithId(all, id, i) by {
          if rest.Some? {
            var i :| 0 <= i < |all[1..]| && all[1..][i] == rest.value && FirstWithId(all[1..], id, i);
            assert FirstWithId(all, id, i + 1);
          }
        }
        rest
    }

    /** find_by_customer: all orders of the loaded list whose customer has the given id,
        in list order, or none when there are none (never an empty list). */
    static function FindByCustomer(all: seq<Order>, customerId: int): (r: Option<seq<Order>>)
      ensures r.None? <==> forall i :: 0 <= i < |all| ==> all[i].customer.id != customerId
      ensures r.Some? ==> r.value == WithCustomer(all, customerId) && |r.value| > 0
    {
      var found := WithCustomer(all, customerId);
      if |found| == 0 then
        assert forall i :: 0 <= i < |all| ==> all[i].customer.id != customerId by {
          forall i | 0 <= i < |all| ensures all[i].customer.id != customerId {
            assert all[i] in all;
          }
        }
        None
      else
        assert found[0] in found;
        Some(found)
    }

    /** One row of the persisted file turned into an order: the id and customer id read
        with to_i, the product field with to_products, the customer looked up by id, and
        the status passed to the same validation as a direct construction. */
    static method FromRow(row: Row, findCustomer: int -> Customer) returns (r: Result<Order>)
      ensures r.Failure? <==> row.status !in AllowedSymbols
      ensures r.Failure? ==> r.error == InvalidStatus
      ensures r.Success? ==> fresh(r.value) && Loaded(r.value, row, findCustomer)
    {
      var id := ToI(row.id);
      var products := ToProducts(row.products);
      var customer := findCustomer(ToI(row.customerId));
      r := Create(id, products, customer, row.status);
    }

    /** all: every row turned into an order, in file order; the first row whose status
        is not allowed makes the whole load fail. */
    static method All(rows: seq<Row>, findCustomer: int -> Customer) returns (r: Result<seq<Order>>)
      ensures r.Failure? <==> exists i :: 0 <= i < |rows| && rows[i].status !in AllowedSymbols
      ensures r.Failure? ==> r.error == InvalidStatus
      ensures r.Success? ==> |r.value| == |rows|
      ensures r.Success? ==> forall i :: 0 <= i < |rows| ==> fresh(r.value[i]) && Loaded(r.value[i], rows[i], findCustomer)
    {
      var orders: seq<Order> := [];
      var i := 0;
      while i < |rows|
        invariant 0 <= i <= |rows| && |orders| == i
        invariant forall j :: 0 <= j < i ==> fresh(orders[j]) && Loaded(orders[j], rows[j], findCustomer)
      {
        var order := FromRow(rows[i], findCustomer);
        if order.Failure? {
          return Failure(order.error);
        }
        var next := orders + [order.value];
        forall j | 0 <= j < i + 1
          ensures fresh(next[j]) && Loaded(next[j], rows[j], findCustomer)
        {
          if j < i {
            assert next[j] == orders[j];
          }
        }
        orders := next;
        i := i + 1;
      }
      forall j | 0 <= j < |rows| ensures rows[j].status in AllowedSymbols {
        SymbolNameAllowed(orders[j].fulfillmentStatus);
      }
      return Success(orders);
    }
  }

  /** Position i holds the first order of the list with the given id. */
  ghost predicate FirstWithId(all: seq<Order>, id: int, i: int)
  {
    0 <= i < |all| && all[i].id == id && forall j :: 0 <= j < i ==> all[j].id != id
  }

  /** The orders of the list whose customer has the given id, in list order (Ruby: find_all). */
  function WithCustomer(all: seq<Order>, customerId: int): (r: seq<Order>)
    ensures |r| <= |all|
    ensures forall i :: 0 <= i < |r| ==> r[i] in all && r[i].customer.id == customerId
    ensures forall i :: 0 <= i < |all| && all[i].customer.id == customerId ==> all[i] in r
  {
    if |all| == 0 then []
    else
      var rest := WithCustomer(all[1..], customerId);
      assert forall i :: 1 <= i < |all| ==> all[i] == all[1..][i - 1];
      if all[0].customer.id == customerId then [all[0]] + rest else rest
  }

  /** The fields of an order loaded from a row. */
  ghost predicate Loaded(o: Order, row: Row, findCustomer: int -> Customer)
    reads o
  {
    && o.id == ToI(row.id)
    && o.products == Collect(Split(row.products))
    && o.customer == findCustomer(ToI(row.customerId))
    && SymbolName(o.fulfillmentStatus) == row.status
  }

  /** Filtering by customer keeps the list order: it distributes over concatenation. */
  lemma {:induction false} WithCustomerAppend(a: seq<Order>, b: seq<Order>, customerId: int)
    ensures WithCustomer(a + b, customerId) == WithCustomer(a, customerId) + WithCustomer(b, customerId)
  {
    if |a| == 0 {
      assert a + b == b;
    } else {
      assert (a + b)[1..] == a[1..] + b;
      WithCustomerAppend(a[1..], b, customerId);
    }
  }

  /** Find on a list made of two parts finds in the first part when it can, else in the second. */
  lemma {:induction false} FindAppend(a: seq<Order>, b: seq<Order>, id: int)
    ensures Order.Find(a + b, id) == if Order.Find(a, id).Some? then Order.Find(a, id) else Order.Find(b, id)
  {
    if |a| == 0 {
      assert a + b == b;
    } else {
      assert (a + b)[1..] == a[1..] + b;
      FindAppend(a[1..], b, id);
    }
  }

  /** The example order {"book": 20.00, "pen": 1.00}: subtotal 21.00, with tax 22.575, total 22.58. */
  lemma ExampleTotal(o: Order)
    requires o.products == map["book" := 20.0, "pen" := 1.0]
    ensures o.Total() == 22.58
  {
    SubtotalAdd(map["book" := 20.0], "pen", 1.0);
    SubtotalSingle("book", 20.0);
    assert map["book" := 20.0]["pen" := 1.0] == o.products;
    assert Subtotal(o.products) == 21.0;
    assert RoundCents(21.0 + 21.0 * TaxRate) == 2258;
  }

  /** Rounding is applied once, to the taxed sum, not per product: two products of 1.00
      total 2.15, while rounding each taxed price (1.075 to 1.08) and adding would give 2.16. */
  lemma TotalRoundsOnce(o: Order)
    requires o.products == map["a" := 1.0, "b" := 1.0]
    ensures o.Total() == 2.15
    ensures o.Total() != Round2(1.0 * (1.0 + TaxRate)) + Round2(1.0 * (1.0 + TaxRate))
  {
    SubtotalAdd(map["a" := 1.0], "b", 1.0);
    SubtotalSingle("a", 1.0);
    assert map["a" := 1.0]["b" := 1.0] == o.products;
    assert Subtotal(o.products) == 2.0;
    assert RoundCents(2.0 + 2.0 * TaxRate) == 215;
    assert RoundCents(1.0 * (1.0 + TaxRate)) == 108;
  }
}
