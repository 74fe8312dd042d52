// Identifiers and small types shared by every part of the room runtime.

module Common {

  datatype Option<+T> = None | Some(value: T)

  type PlayerID = string
  type UserID = string
  type SessionID = string
  type ObjectID = string

  datatype Vec3 = Vec3(x: real, y: real, z: real)

  datatype Quat = Quat(x: real, y: real, z: real, w: real)

  // Ticks and versions are uint32 in the runtime: they wrap at this bound.
  const UINT32 := 0x1_0000_0000

  function Succ32(n: nat): (r: nat)
    ensures r < UINT32
    ensures n + 1 < UINT32 ==> r == n + 1
  {
    (n + 1) % UINT32
  }

  // a + n in uint32 arithmetic.
  function Add32(a: nat, n: nat): nat {
    (a + n) % UINT32
  }

  lemma Add32OneMore(a: nat, n: nat)
    requires a < UINT32
    ensures Add32(a, 0) == a && Add32(a, n + 1) == Succ32(Add32(a, n))
  {
  }

  // Fewer than 2^32 increments return to the start only if there were none.
  lemma Add32Returns(a: nat, n: nat)
    requires a < UINT32 && n < UINT32
    ensures Add32(a, n) == a <==> n == 0
  {
  }

  // a - b in uint32 arithmetic.
  function Sub32(a: nat, b: nat): (r: nat)
    requires a < UINT32 && b < UINT32
    ensures r < UINT32
    ensures Wraps(b, r, a)
  {
    (a - b) % UINT32
  }

  // Advancing `from` by `steps` ticks, wrapping, arrives at `to`.
  ghost predicate Wraps(from: nat, steps: nat, to: nat) {
    to == from + steps || to + UINT32 == from + steps
  }

  ghost predicate NoDuplicates<T>(s: seq<T>) {
    forall i, j :: 0 <= i < j < |s| ==> s[i] != s[j]
  }

  /** The items, each once, in some order. */
  ghost predicate Enumerates<T(!new)>(order: seq<T>, items: set<T>) {
    (forall x :: x in order <==> x in items) && NoDuplicates(order)
  }

  lemma EnumeratesOneMore<T(!new)>(order: seq<T>, items: set<T>, x: T)
    requires Enumerates(order, items) && x !in items
    ensures Enumerates(order + [x], items + {x})
  {
    assert x !in order;
  }

  lemma {:induction false} ListOf<T(!new)>(items: set<T>) returns (order: seq<T>)
    ensures Enumerates(order, items)
  {
    if items == {} {
      order := [];
    } else {
      var x :| x in items;
      var rest := ListOf(items - {x});
      EnumeratesOneMore(rest, items - {x}, x);
      assert items - {x} + {x} == items;
      order := rest + [x];
    }
  }

  lemma SubsetSize<T>(a: set<T>, b: set<T>)
    requires a <= b
    ensures |a| <= |b|
    ensures |a| == |b| ==> a == b
  {
    assert b == a + (b - a);
  }
}

module Arithmetic {

  lemma NonNegativeProduct(a: nat, b: nat)
    ensures a * b >= 0
  {
  }

  lemma CancelFactor(a: int, b: int, t: int)
    requires t > 0 && a * t < b * t
    ensures a < b
  {
    assert (b - a) * t > 0;
  }

  lemma SmallMultiple(d: int, k: nat)
    requires 0 < d * k + k && d * k < k
    ensures d == 0
  {
    CancelFactor(d, 1, k);
    CancelFactor(-1, d, k);
  }
}
