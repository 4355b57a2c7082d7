/**
 * The HTML body of the discount alert e-mail: a header, one list item per row in row
 * order, then a footer. Price and discount are REAL columns; how Python prints a float
 * is the parameter showReal.
 */
module Alerts {
  import opened Records

  const HEADER: string := "<h2>Significant Discounts Detected</h2><ul>"
  const FOOTER: string := "</ul><p>Thank you for using Amazon Discount Tracker!</p>"

  /** The list item for one row: id, name, price and discount, in column order. */
  function Item(r: Record, showReal: int -> string): string
  {
    "<li>Product ID: " + IntToString(r.id) + ", Name: " + r.name
      + ", Price: " + showReal(r.price) + ", Discount: " + showReal(r.discount) + "%</li>"
  }

  /** The list items of rows, in order. */
  function Items(rows: seq<Record>, showReal: int -> string): string
    decreases |rows|
  {
    if rows == [] then "" else Items(rows[..|rows| - 1], showReal) + Item(rows[|rows| - 1], showReal)
  }

  /** Every item starts with "<li>" and ends with "</li>". */
  lemma ItemIsListElement(r: Record, showReal: int -> string)
    ensures |Item(r, showReal)| >= 9
    ensures Item(r, showReal)[..4] == "<li>"
    ensures Item(r, showReal)[|Item(r, showReal)| - 5..] == "</li>"
  {
  }

  /** The items of a prefix of rows are a prefix of the items of rows. */
  lemma {:induction false} ItemsPrefix(rows: seq<Record>, n: nat, showReal: int -> string)
    requires n <= |rows|
    ensures Items(rows[..n], showReal) <= Items(rows, showReal)
    decreases |rows|
  {
    if n < |rows| {
      var front := rows[..|rows| - 1];
      assert rows[..n] == front[..n];
      ItemsPrefix(front, n, showReal);
    } else {
      assert rows[..n] == rows;
    }
  }

  /** Appending one more row appends its item. */
  lemma ItemsSnoc(rows: seq<Record>, i: nat, showReal: int -> string)
    requires i < |rows|
    ensures Items(rows[..i + 1], showReal) == Items(rows[..i], showReal) + Item(rows[i], showReal)
  {
    assert rows[..i + 1][..i] == rows[..i];
  }

  /**
   * The i-th row's item follows the items of the rows before it: the body lists the
   * rows one item each, in row order.
   */
  lemma ItemsInOrder(rows: seq<Record>, i: nat, showReal: int -> string)
    requires i < |rows|
    ensures Items(rows[..i], showReal) + Item(rows[i], showReal) <= Items(rows, showReal)
  {
    ItemsSnoc(rows, i, showReal);
    ItemsPrefix(rows, i + 1, showReal);
  }

  /** Regrouping a concatenation; stated apart so the loop step never unfolds Item. */
  lemma AppendAssoc(a: string, b: string, c: string)
    ensures (a + b) + c == a + (b + c)
  {
  }

  /** The body built in enhanced_notify_user: the header, each row's item appended with +=, the footer. */
  method BuildBody(rows: seq<Record>, showReal: int -> string) returns (body: string)
    ensures body == HEADER + Items(rows, showReal) + FOOTER
  {
    body := HEADER;
    for i := 0 to |rows|
      invariant body == HEADER + Items(rows[..i], showReal)
    {
      var item := Item(rows[i], showReal);
      ItemsSnoc(rows, i, showReal);
      AppendAssoc(HEADER, Items(rows[..i], showReal), item);
      body := body + item;
    }
    assert rows[..|rows|] == rows;
    body := body + FOOTER;
  }
}
