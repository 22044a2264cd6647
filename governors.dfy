/** Rotation of the governor in office through the fixed list of governor names.
    Only the length of that list matters here. */
module Governors {

  /** The index after one resignation: increment, and go back to 0 once the index
      reaches the length of the list. */
  function NextGovernorIndex(i: nat, count: nat): (r: nat)
    ensures i < count ==> r == (i + 1) % count
    ensures count > 0 ==> r < count
    ensures count == 0 ==> r == 0
  {
    if i + 1 >= count then 0 else i + 1
  }

  /** The index of the governor in office after `n` resignations, starting from 0. */
  function GovernorIndexAfter(n: nat, count: nat): (r: nat)
    ensures count > 0 ==> r < count
    ensures count == 0 ==> r == 0
  {
    if n == 0 then 0 else NextGovernorIndex(GovernorIndexAfter(n - 1, count), count)
  }

  /** After `n` resignations the index is `n` modulo the number of governors. */
  lemma {:induction false} GovernorIndexAfterIsModulo(n: nat, count: nat)
    requires count > 0
    ensures GovernorIndexAfter(n, count) == n % count
  {
    if n > 0 {
      var previous := GovernorIndexAfter(n - 1, count);
      GovernorIndexAfterIsModulo(n - 1, count);
      ModSucc(n - 1, count);
      assert GovernorIndexAfter(n, count) == if previous + 1 >= count then 0 else previous + 1;
    }
  }

  lemma ModShift(x: int, c: int)
    requires c > 0 && x >= 0
    ensures (x + c) % c == x % c
  {
    var d := (x + c) / c - x / c - 1;
    assert c * d == x % c - (x + c) % c;
  }

  lemma {:induction false} ModSucc(m: nat, c: nat)
    requires c > 0
    ensures (m + 1) % c == if m % c + 1 < c then m % c + 1 else 0
  {
    if m >= c {
      ModSucc(m - c, c);
      ModShift(m - c, c);
      ModShift(m + 1 - c, c);
    } else if m + 1 == c {
      assert (m + 1) % c == 0;
    }
  }
}
