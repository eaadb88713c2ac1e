/** `greet(name)` of the in-source test example. */
module Greeter {

  /** The template string `Hello, ${name}!`. */
  function Greet(name: string): (r: string)
    ensures |r| == |name| + 8
    ensures r[..7] == "Hello, " && r[|r| - 1] == '!'
    ensures r[7..|r| - 1] == name
  {
    "Hello, " + name + "!"
  }

  /** Different names give different greetings: the name can be read back. */
  lemma GreetInjective(a: string, b: string)
    requires Greet(a) == Greet(b)
    ensures a == b
  {
    assert a == Greet(a)[7..|Greet(a)| - 1];
  }

  lemma GreetExamples()
    ensures Greet("Miko") == "Hello, Miko!"
    ensures Greet("") == "Hello, !"
  {
  }
}
