/** The script that runs under both tsx and node: `greetUser` and the
    `reduce`-based `calculateTotal` over a product list. */
module WorkBoth {

  datatype User = User(id: int, name: string, email: string)

  datatype Product = Product(id: int, name: string, price: int)

  /** `Hello, ${user.name}! Your email is ${user.email}`. */
  function GreetUser(u: User): (r: string)
    ensures |r| == |u.name| + |u.email| + 23
    ensures r[..7] == "Hello, " && r[7..7 + |u.name|] == u.name
    ensures r[7 + |u.name|..7 + |u.name| + 16] == "! Your email is "
    ensures r[|r| - |u.email|..] == u.email
  {
    "Hello, " + u.name + "! Your email is " + u.email
  }

  /** `products.reduce((sum, p) => sum + p.price, 0)`: a left fold from 0. */
  function CalculateTotal(products: seq<Product>): int {
    if products == [] then 0
    else CalculateTotal(products[..|products| - 1]) + products[|products| - 1].price
  }

  /** An independent definition of the same total: price of the head plus the
      total of the tail. */
  function SumPrices(products: seq<Product>): int {
    if products == [] then 0 else products[0].price + SumPrices(products[1..])
  }

  /** The total of a concatenation is the sum of the totals. */
  lemma {:induction false} TotalAppend(xs: seq<Product>, ys: seq<Product>)
    ensures CalculateTotal(xs + ys) == CalculateTotal(xs) + CalculateTotal(ys)
  {
    if ys == [] {
      assert xs + ys == xs;
    } else {
      var last := ys[|ys| - 1];
      assert (xs + ys)[..|xs + ys| - 1] == xs + ys[..|ys| - 1];
      TotalAppend(xs, ys[..|ys| - 1]);
    }
  }

  /** The fold from the left adds up the same prices as the recursion from the
      right: `calculateTotal` is the sum of the prices. */
  lemma {:induction false} TotalIsSum(products: seq<Product>)
    ensures CalculateTotal(products) == SumPrices(products)
  {
    if products != [] {
      TotalIsSum(products[1..]);
      TotalAppend([products[0]], products[1..]);
      assert [products[0]] + products[1..] == products;
      assert CalculateTotal([products[0]]) == products[0].price by {
        assert [products[0]][..0] == [];
      }
    }
  }

  const SampleUser := User(1, "John Doe", "john@example.com")

  const SampleProducts := [
    Product(1, "Laptop", 1000),
    Product(2, "Mouse", 500),
    Product(3, "Keyboard", 3000)
  ]

  lemma SampleRun()
    ensures CalculateTotal([]) == 0
    ensures CalculateTotal(SampleProducts) == 4500
    ensures GreetUser(SampleUser) == "Hello, John Doe! Your email is john@example.com"
  {
    TotalIsSum(SampleProducts);
    var greeting := GreetUser(SampleUser);
    assert greeting == "Hello, " + "John Doe" + "! Your email is " + "john@example.com";
    assert "Hello, " + "John Doe" + "! Your email is " == "Hello, John Doe! Your email is ";
  }
}
