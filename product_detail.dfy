/**
 * Derived fields of the product-detail view (ProductDetailSerializer):
 * whether the current user has bought the product, and the description
 * with an optional inline style added to its images.
 */
module ProductDetail {
  import opened Wrappers
  import opened PyStr
  import Orders

  /** An order-item row of a SUCCESS order of `user` for `product`. */
  predicate IsSuccessfulPurchase(it: Orders.OrderItem, orders: map<Orders.OrderId, Orders.Order>,
                                 user: Orders.UserId, product: Orders.ProductId)
  {
    && it.product == product
    && it.order in orders
    && orders[it.order].user == user
    && orders[it.order].status == Orders.Success
  }

  /** The filtered query: the rows that record a successful purchase, in table order. */
  function Purchases(items: seq<Orders.OrderItem>, orders: map<Orders.OrderId, Orders.Order>,
                     user: Orders.UserId, product: Orders.ProductId): (r: seq<Orders.OrderItem>)
    ensures |r| <= |items|
    ensures forall x :: x in r <==> x in items && IsSuccessfulPurchase(x, orders, user, product)
    decreases |items|
  {
    if items == [] then []
    else
      var rest := Purchases(items[1..], orders, user, product);
      assert forall x :: x in items <==> x == items[0] || x in items[1..];
      if IsSuccessfulPurchase(items[0], orders, user, product) then [items[0]] + rest else rest
  }

  /**
   * get_is_buy: the user has bought the product iff some order-item row
   * for it belongs to an order of that user whose status is SUCCESS.
   */
  function IsBuy(items: seq<Orders.OrderItem>, orders: map<Orders.OrderId, Orders.Order>,
                 user: Orders.UserId, product: Orders.ProductId): (b: bool)
    ensures b <==> exists i :: 0 <= i < |items| && IsSuccessfulPurchase(items[i], orders, user, product)
  {
    var found := Purchases(items, orders, user, product);
    assert |found| > 0 ==> found[0] in found;
    |found| > 0
  }

  const IMG_TAG := "<img"

  /** The tag that replaces `<img` when a style is requested. */
  function StyledImgTag(style: string): string
  {
    "<img style=\"" + style + "\""
  }

  /**
   * get_description: without the `img_style` query parameter the
   * description is returned as stored; with it, every `<img` is rewritten to
   * `<img style="…"`, i.e. the text between occurrences of `<img` is kept
   * and the occurrences are replaced by the styled tag. A description
   * without images is never changed.
   */
  function Description(description: string, imgStyle: Option<string>): (r: string)
    ensures imgStyle.None? ==> r == description
    ensures imgStyle.Some? ==> r == Join(Split(description, IMG_TAG), StyledImgTag(imgStyle.value))
    ensures !Contains(description, IMG_TAG) ==> r == description
  {
    match imgStyle
    case None => description
    case Some(style) =>
      ReplaceIsJoinOfSplit(description, IMG_TAG, StyledImgTag(style));
      ReplaceWithoutOccurrence(description, IMG_TAG, StyledImgTag(style));
      Replace(description, IMG_TAG, StyledImgTag(style))
  }
}
