/** What the modules share. */
module Basics {

  datatype Option<+T> = None | Some(value: T)

  type Int32 = x: int | -0x8000_0000 <= x < 0x8000_0000

  /** Conversion of a wider integer to a 32-bit int in C: as it is if it fits, else modulo 2^32. */
  function ToInt32(x: int): Int32 {
    if -0x8000_0000 <= x < 0x8000_0000 then x
    else
      var low := x % 0x1_0000_0000;
      if low < 0x8000_0000 then low else low - 0x1_0000_0000
  }

  /** There is only one 32-bit number it can be. */
  lemma ToInt32IsCongruent(x: int)
    ensures (ToInt32(x) - x) % 0x1_0000_0000 == 0
  {
    if !(-0x8000_0000 <= x < 0x8000_0000) {
      var low := x % 0x1_0000_0000;
      assert x == x / 0x1_0000_0000 * 0x1_0000_0000 + low;
      Multiple(ToInt32(x) - x, if low < 0x8000_0000 then -(x / 0x1_0000_0000) else -(x / 0x1_0000_0000) - 1);
    }
  }

  lemma Multiple(x: int, q: int)
    requires x == q * 0x1_0000_0000
    ensures x % 0x1_0000_0000 == 0
  {
  }

  function One(b: bool): nat {
    if b then 1 else 0
  }

  /** `s` without its k-th element, if it has one. */
  function DropAt<T>(s: seq<T>, k: nat): seq<T> {
    if k < |s| then s[..k] + s[k + 1..] else s
  }

  lemma Associates<T>(a: seq<T>, b: seq<T>, c: seq<T>)
    ensures a + b + c == a + (b + c)
  {
  }

  /** What goes in and out of two steps in a row adds up. */
  lemma Telescope<T>(a: multiset<T>, in1: multiset<T>, out1: multiset<T>, b: multiset<T>,
                     in2: multiset<T>, out2: multiset<T>, c: multiset<T>)
    requires a + in1 == out1 + b && b + in2 == out2 + c
    ensures a + (in1 + in2) == (out1 + out2) + c
  {
    calc {
      a + (in1 + in2);
      (a + in1) + in2;
      (out1 + b) + in2;
      out1 + (b + in2);
      out1 + (out2 + c);
      (out1 + out2) + c;
    }
  }
}
