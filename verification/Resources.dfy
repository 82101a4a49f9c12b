/** What the other modules share: amounts of the three resources, and the two searches
    every slot table is used with, the first slot with a property and a total over all. */
module Resources {

  datatype Option<+T> = None | Some(value: T)

  datatype Resource = A | B | C

  datatype Amounts = Amounts(a: int, b: int, c: int) {
    function Of(r: Resource): int {
      match r
      case A => a
      case B => b
      case C => c
    }

    function Plus(other: Amounts): Amounts {
      Amounts(a + other.a, b + other.b, c + other.c)
    }

    function Minus(other: Amounts): Amounts {
      Amounts(a - other.a, b - other.b, c - other.c)
    }

    predicate Covers(other: Amounts) {
      a >= other.a && b >= other.b && c >= other.c
    }

    predicate NonNegative() {
      Covers(ZERO)
    }
  }

  const ZERO := Amounts(0, 0, 0)

  function Min(a: nat, b: nat): nat { if a < b then a else b }

  /** The lowest index whose element satisfies p, or |s| when there is none. */
  function FirstWhere<T>(s: seq<T>, p: T -> bool): (r: nat)
    ensures r <= |s|
    ensures forall k :: 0 <= k < r ==> !p(s[k])
    ensures r < |s| ==> p(s[r])
  {
    if s == [] then 0
    else if p(s[0]) then 0
    else
      var rest := FirstWhere(s[1..], p);
      assert forall k :: 0 < k < |s| ==> s[k] == s[1..][k - 1];
      1 + rest
  }

  /** The sum of the weights of all elements. */
  function Total<T>(s: seq<T>, weight: T -> int): int {
    if s == [] then 0 else weight(s[0]) + Total(s[1..], weight)
  }

  /** Overwriting one element changes the total by exactly the difference. */
  lemma {:induction false} TotalOfUpdate<T>(s: seq<T>, weight: T -> int, i: nat, v: T)
    requires i < |s|
    ensures Total(s[i := v], weight) == Total(s, weight) - weight(s[i]) + weight(v)
  {
    if i == 0 {
      assert s[0 := v][1..] == s[1..];
    } else {
      assert s[i := v][1..] == s[1..][i - 1 := v];
      TotalOfUpdate(s[1..], weight, i - 1, v);
    }
  }

  lemma {:induction false} TotalOfConcat<T>(s: seq<T>, t: seq<T>, weight: T -> int)
    ensures Total(s + t, weight) == Total(s, weight) + Total(t, weight)
  {
    if s == [] {
      assert s + t == t;
    } else {
      assert (s + t)[1..] == s[1..] + t;
      TotalOfConcat(s[1..], t, weight);
    }
  }

  lemma {:induction false} TotalOfWeightless<T>(s: seq<T>, weight: T -> int)
    requires forall i :: 0 <= i < |s| ==> weight(s[i]) == 0
    ensures Total(s, weight) == 0
  {
    if s != [] {
      TotalOfWeightless(s[1..], weight);
    }
  }
}
