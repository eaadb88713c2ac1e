/** The arithmetic helpers of the in-source test example: `add`, `subtract`,
    `multiply`, the zero-guarded `divide`, `isEven` (JavaScript's `%`) and the
    recursive `factorial` that refuses negative input. */
module MathOps {
  import opened Wrappers

  /** `add(a, b)`: subtracting either operand gives back the other. */
  function Add(a: int, b: int): (r: int)
    ensures Subtract(r, b) == a && Subtract(r, a) == b
  {
    a + b
  }

  /** `subtract(a, b)`: adding `b` back gives `a`. */
  function Subtract(a: int, b: int): (r: int)
    ensures r + b == a
    ensures r == 0 <==> a == b
  {
    a - b
  }

  /** `multiply(a, b)`: zero exactly when a factor is zero, positive exactly
      when the factors have the same sign. */
  function Multiply(a: int, b: int): (r: int)
    ensures r == 0 <==> a == 0 || b == 0
    ensures r > 0 <==> (a > 0 && b > 0) || (a < 0 && b < 0)
  {
    SignOfProduct(a, b);
    a * b
  }

  lemma SignOfProduct(a: int, b: int)
    ensures a * b == 0 <==> a == 0 || b == 0
    ensures a * b > 0 <==> (a > 0 && b > 0) || (a < 0 && b < 0)
  {
    if a > 0 && b < 0 {
      assert a * b == -(a * -b);
    } else if a < 0 && b > 0 {
      assert a * b == -(-a * b);
    } else if a < 0 && b < 0 {
      assert a * b == -a * -b;
    }
  }

  /** `divide(a, b)`: the exact quotient, or the "Cannot divide by zero" error. */
  function Divide(a: int, b: int): (r: Result<real, string>)
    ensures r.Err? <==> b == 0
    ensures r.Err? ==> r.error == "Cannot divide by zero"
    ensures r.Ok? ==> r.value * (b as real) == a as real
  {
    if b == 0 then Err("Cannot divide by zero") else Ok(a as real / b as real)
  }

  lemma DivideExample()
    ensures Divide(10, 2) == Ok(5.0)
    ensures Divide(10, 0).Err?
  {
  }

  /** JavaScript's `a % b` for a positive divisor: the remainder of division
      truncated toward zero, so its sign follows the dividend (unlike Dafny's
      Euclidean `%`). */
  function JsRemainder(a: int, b: int): (r: int)
    requires b > 0
    ensures a >= 0 ==> 0 <= r < b
    ensures a < 0 ==> -b < r <= 0
  {
    if a >= 0 then a % b else -((-a) % b)
  }

  /** `isEven(num)`: `num % 2 === 0`. */
  function IsEven(n: int): (r: bool)
    ensures r <==> n % 2 == 0
  {
    JsRemainder(n, 2) == 0
  }

  /** `isEven` alternates, negative numbers included. */
  lemma IsEvenMeansEven(n: int)
    ensures IsEven(n) <==> !IsEven(n + 1)
    ensures IsEven(n) <==> IsEven(-n)
  {
  }

  lemma IsEvenExamples()
    ensures IsEven(0) && IsEven(2) && !IsEven(1) && !IsEven(3) && !IsEven(-3) && IsEven(-4)
  {
  }

  /** `factorial(n)`: an error for negative `n`; 1 for 0 and 1; otherwise
      `n * factorial(n - 1)`. */
  function Factorial(n: int): (r: Result<int, string>)
    ensures r.Err? <==> n < 0
    ensures r.Err? ==> r.error == "Factorial is not defined for negative numbers"
    ensures r.Ok? ==> r.value >= 1 && r.value >= n
    decreases if n < 0 then 0 else n
  {
    if n < 0 then Err("Factorial is not defined for negative numbers")
    else if n == 0 || n == 1 then Ok(1)
    else
      var f := Factorial(n - 1).value;
      Ok(n * f)
  }

  /** The recursion step the source performs for `n >= 2`. */
  lemma FactorialStep(n: int)
    requires n >= 2
    ensures Factorial(n).Ok? && Factorial(n - 1).Ok?
    ensures Factorial(n).value == n * Factorial(n - 1).value
  {
  }

  /** Every `k` in 1..n divides `factorial(n)`: the cofactor `q` is returned. */
  lemma {:induction false} FactorialDivisible(n: int, k: int) returns (q: int)
    requires 1 <= k <= n
    ensures Factorial(n).value == k * q
  {
    if n == 1 {
      q := 1;
    } else if k == n {
      q := Factorial(n - 1).value;
    } else {
      var q' := FactorialDivisible(n - 1, k);
      q := n * q';
      assert Factorial(n).value == n * (k * q');
    }
  }

  lemma FactorialExamples()
    ensures Factorial(0) == Ok(1) && Factorial(1) == Ok(1)
    ensures Factorial(5) == Ok(120)
    ensures Factorial(-1).Err?
  {
    FactorialStep(2);
    FactorialStep(3);
    FactorialStep(4);
    FactorialStep(5);
  }
}
