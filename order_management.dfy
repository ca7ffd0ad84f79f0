/**
 * The order-management example: a product catalogue and an order book,
 * both keyed by id. An order is accepted only when every product it names
 * is in the catalogue.
 */
module OrderManagement {
  import opened Options

  datatype Product = Product(productId: string, name: string, quantity: int)

  /** An order names its products by id. */
  datatype Order = Order(orderId: string, items: seq<string>)

  /** Every product the order names is in the catalogue. */
  predicate Stocked(products: map<string, Product>, order: Order) {
    forall k :: 0 <= k < |order.items| ==> order.items[k] in products
  }

  class OrderManagement {
    var products: map<string, Product>
    var orders: map<string, Order>

    constructor ()
      ensures products == map[] && orders == map[]
    {
      products := map[];
      orders := map[];
    }

    /** Stores the product under its id, replacing any earlier entry. */
    method AddProduct(product: Product)
      modifies this`products
      ensures products == old(products)[product.productId := product]
    {
      products := products[product.productId := product];
    }

    /**
     * Stores the order under its id, replacing any earlier order of that id,
     * when every product it names is in the catalogue; otherwise stops at
     * the first missing product and leaves the order book alone. `placed`
     * tells which of the two messages is shown.
     */
    method PlaceOrder(order: Order) returns (placed: bool)
      modifies this`orders
      ensures placed == Stocked(products, order)
      ensures orders == if placed then old(orders)[order.orderId := order] else old(orders)
    {
      for i := 0 to |order.items|
        invariant forall k :: 0 <= k < i ==> order.items[k] in products
      {
        if order.items[i] !in products {
          return false;
        }
      }
      orders := orders[order.orderId := order];
      placed := true;
    }

    /** The stored order with this id, if there is one. */
    function GetOrder(orderId: string): (r: Option<Order>)
      reads this
      ensures r.Some? <==> orderId in orders
      ensures r.Some? ==> r.value == orders[orderId]
    {
      if orderId in orders then Some(orders[orderId]) else None
    }
  }

  /**
   * The example driver: two products in the catalogue, then an order for
   * both of them, which is accepted. Beyond what the driver does, the stored
   * order is looked up, and a second order naming a product outside the
   * catalogue is refused.
   */
  method PlaceExampleOrders() returns (first: bool, stored: Option<Order>, second: bool)
    ensures first && stored == Some(Order("O1", ["P1", "P2"]))
    ensures !second
  {
    var om := new OrderManagement();
    om.AddProduct(Product("P1", "Laptop", 10));
    om.AddProduct(Product("P2", "Phone", 20));
    first := om.PlaceOrder(Order("O1", ["P1", "P2"]));
    var unstocked := Order("O2", ["P1", "P3"]);
    assert unstocked.items[1] !in om.products by {
      assert "P3" != "P1" && "P3" != "P2";
    }
    second := om.PlaceOrder(unstocked);
    stored := om.GetOrder("O1");
  }
}
