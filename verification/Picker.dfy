/** Load balancing: round robin and weighted round robin over one atomic ticket counter. */
module Picker {
  import opened Options

  const U64: int := 0x1_0000_0000_0000_0000
  const HALF: int := 0x8000_0000_0000_0000

  /** What the 64-bit `int` keeps of a sum. */
  function Wrap(n: int): (r: int)
    ensures -HALF <= r < HALF && (-HALF <= n < HALF ==> r == n) && (n - r) % 0x1_0000_0000_0000_0000 == 0
    ensures 0 < n ==> r <= n && (r == n || r <= n - U64)
  {
    (n + HALF) % U64 - HALF
  }

  lemma WrapAdds(a: int, b: int)
    ensures Wrap(Wrap(a) + b) == Wrap(a + b)
  {
  }

  /** The weight that counts: 100 for a weight that is not positive. */
  function Effective(weight: int): (r: int)
    ensures r > 0
  {
    if weight <= 0 then 100 else weight
  }

  type Int64 = n: int | -HALF <= n < HALF

  predicate Weights(ws: seq<int>) {
    ws != [] && forall i :: 0 <= i < |ws| ==> 0 < ws[i] < HALF
  }

  /** The sum of the first `i` weights. */
  function Prefix(ws: seq<int>, i: nat): int
    requires i <= |ws|
  {
    if i == 0 then 0 else Prefix(ws, i - 1) + ws[i - 1]
  }

  function Total(ws: seq<int>): int {
    Prefix(ws, |ws|)
  }

  lemma {:induction false} PrefixGrows(ws: seq<int>, i: nat, j: nat)
    requires Weights(ws) && i <= j <= |ws|
    ensures Prefix(ws, i) + (j - i) <= Prefix(ws, j)
    decreases j
  {
    if i == j {
    } else {
      PrefixGrows(ws, i, j - 1);
    }
  }

  /** The endpoint whose share of the weights covers `c`, from `i` on. */
  function OwnerFrom(ws: seq<int>, i: nat, c: int): (r: nat)
    requires i < |ws| && Prefix(ws, i) < c <= Total(ws)
    ensures i <= r < |ws| && Prefix(ws, r) < c <= Prefix(ws, r + 1)
    decreases |ws| - i
  {
    if c <= Prefix(ws, i + 1) then i else OwnerFrom(ws, i + 1, c)
  }

  lemma OwnerIsUnique(ws: seq<int>, c: int, i: nat, j: nat)
    requires Weights(ws) && i < |ws| && j < |ws|
    requires Prefix(ws, i) < c <= Prefix(ws, i + 1) && Prefix(ws, j) < c <= Prefix(ws, j + 1)
    ensures i == j
  {
    if i < j { PrefixGrows(ws, i + 1, j); }
    if j < i { PrefixGrows(ws, j + 1, i); }
  }

  /** The endpoint a ticket of weighted round robin picks. */
  function Picked(ws: seq<int>, ticket: nat): (r: nat)
    requires Weights(ws)
    ensures r < |ws|
  {
    var total := Wrap(Total(ws));
    PrefixGrows(ws, 0, |ws|);
    if total <= 0 then 0 else OwnerFrom(ws, 0, ticket % total + 1)
  }

  lemma CursorInRange(ws: seq<int>, ticket: nat)
    requires Weights(ws) && Wrap(Total(ws)) > 0
    ensures var c := ticket % Wrap(Total(ws)) + 1;
            0 < c < HALF && c <= Total(ws) && Picked(ws, ticket) == OwnerFrom(ws, 0, c)
  {
    PrefixGrows(ws, 0, |ws|);
  }

  /** While the weights add up in range, a ticket picks the endpoint whose share covers it. */
  lemma PickedIff(ws: seq<int>, ticket: nat, i: nat)
    requires Weights(ws) && Total(ws) < HALF && i < |ws|
    ensures Total(ws) > 0
    ensures Picked(ws, ticket) == i <==> Prefix(ws, i) <= ticket % Total(ws) < Prefix(ws, i + 1)
  {
    PrefixGrows(ws, 0, |ws|);
    var c := ticket % Total(ws) + 1;
    var r := Picked(ws, ticket);
    if Prefix(ws, i) < c <= Prefix(ws, i + 1) {
      OwnerIsUnique(ws, c, i, r);
    }
  }

  /** Every endpoint is picked by some ticket if and only if the weights add up in range: past it, the endpoints
      at the end get nothing, however many tickets are taken. */
  lemma AllArePickedIffInRange(ws: seq<int>)
    requires Weights(ws)
    ensures (forall i: nat | i < |ws| :: IsPicked(ws, i)) <==> Total(ws) < HALF
  {
    PrefixGrows(ws, 0, |ws|);
    if Total(ws) < HALF {
      forall i: nat | i < |ws| ensures IsPicked(ws, i) {
        PrefixGrows(ws, 0, i);
        PrefixGrows(ws, i, i + 1);
        PrefixGrows(ws, i + 1, |ws|);
        SmallModulo(Prefix(ws, i), Total(ws));
        PickedIff(ws, Prefix(ws, i), i);
      }
    } else {
      var last := |ws| - 1;
      forall ticket: nat ensures Picked(ws, ticket) != last {
        LastIsNotPicked(ws, ticket);
      }
      assert !IsPicked(ws, last);
    }
  }

  ghost predicate IsPicked(ws: seq<int>, i: nat)
    requires Weights(ws)
  {
    exists ticket: nat :: ticket < U64 && Picked(ws, ticket) == i
  }

  lemma SmallModulo(a: nat, b: int)
    requires a < b
    ensures a % b == a
  {
  }

  lemma LastIsNotPicked(ws: seq<int>, ticket: nat)
    requires Weights(ws) && Total(ws) >= HALF
    ensures Picked(ws, ticket) != |ws| - 1
  {
    PrefixGrows(ws, 0, |ws|);
    var last, total := |ws| - 1, Wrap(Total(ws));
    assert total <= Prefix(ws, last);
    if total > 0 {
      var c := ticket % total + 1;
      assert c <= Prefix(ws, last);
    } else {
      assert Prefix(ws, 1) == ws[0] < HALF;
    }
  }

  /** For instance, of these two endpoints every ticket picks the first. */
  lemma OverflowStarves(ticket: nat)
    ensures Weights([HALF - 1, 1]) && Picked([HALF - 1, 1], ticket) == 0
  {
    var ws := [HALF - 1, 1];
    assert Prefix(ws, 0) == 0 && Prefix(ws, 1) == HALF - 1 && Prefix(ws, 2) == HALF;
    assert Wrap(HALF) == -HALF;
  }

  // ---------- Shares ----------

  /** The 64-bit counter as it goes on from `b`. */
  function Ticket(b: nat, k: nat): (r: nat)
    ensures r < U64 && (b + k < U64 ==> r == b + k)
  {
    (b + k) % U64
  }

  /** How often the `n` tickets from `b` on pick endpoint `i`. */
  function Times(ws: seq<int>, i: nat, b: nat, n: nat): nat
    requires Weights(ws)
  {
    if n == 0 then 0 else Times(ws, i, b, n - 1) + Once(ws, i, Ticket(b, n - 1))
  }

  function Once(ws: seq<int>, i: nat, ticket: nat): nat
    requires Weights(ws)
  {
    if Picked(ws, ticket) == i then 1 else 0
  }

  /** How many numbers below `x` fall, modulo `total`, on `lo` to `lo + w`. */
  function Covered(x: nat, total: int, lo: int, w: int): int
    requires total > 0
  {
    x / total * w + Clamp(x % total - lo, w)
  }

  function Clamp(v: int, w: int): int {
    if v < 0 then 0 else if v > w then w else v
  }

  lemma NextDivision(x: nat, total: int)
    requires total > 0
    ensures x % total < total - 1 ==> (x + 1) / total == x / total && (x + 1) % total == x % total + 1
    ensures x % total == total - 1 ==> (x + 1) / total == x / total + 1 && (x + 1) % total == 0
  {
    var q, r := x / total, x % total;
    if r < total - 1 {
      DivisionIsUnique(x + 1, total, q, r + 1);
    } else {
      assert (q + 1) * total == q * total + total;
      DivisionIsUnique(x + 1, total, q + 1, 0);
    }
  }

  lemma DivisionIsUnique(x: int, total: int, q: int, r: int)
    requires total > 0 && x == q * total + r && 0 <= r < total
    ensures x / total == q && x % total == r
  {
    var d := x / total - q;
    assert x == x / total * total + x % total;
    assert d * total == (x / total) * total - q * total;
    Multiples(d, total);
  }

  lemma Multiples(d: int, total: int)
    requires total > 0
    ensures d >= 1 ==> d * total >= total
    ensures d <= -1 ==> d * total <= -total
  {
  }

  lemma CoveredNext(x: nat, total: int, lo: int, w: int)
    requires 0 <= lo && 0 <= w && lo + w <= total && total > 0
    ensures Covered(x + 1, total, lo, w) == Covered(x, total, lo, w) + if lo <= x % total < lo + w then 1 else 0
  {
    NextDivision(x, total);
    if x % total == total - 1 {
      assert (x / total + 1) * w == x / total * w + w;
    }
  }

  lemma ShareBounds(ws: seq<int>, i: nat)
    requires Weights(ws) && i < |ws|
    ensures 0 <= Prefix(ws, i) && Prefix(ws, i) + ws[i] == Prefix(ws, i + 1) <= Total(ws) && Total(ws) > 0
  {
    PrefixGrows(ws, 0, i);
    PrefixGrows(ws, i + 1, |ws|);
  }

  lemma {:induction false} TimesIsCovered(ws: seq<int>, i: nat, b: nat, n: nat)
    requires Weights(ws) && Total(ws) < HALF && i < |ws| && Total(ws) > 0 && b + n <= U64
    ensures Times(ws, i, b, n)
            == Covered(b + n, Total(ws), Prefix(ws, i), ws[i]) - Covered(b, Total(ws), Prefix(ws, i), ws[i])
  {
    if n == 0 {
    } else {
      TimesIsCovered(ws, i, b, n - 1);
      ShareBounds(ws, i);
      CoveredNext(b + (n - 1), Total(ws), Prefix(ws, i), ws[i]);
      PickedIff(ws, b + (n - 1), i);
    }
  }

  lemma WindowDivision(x: nat, q: nat, r: nat, total: int)
    requires r < total
    ensures var b, s := x / total, x % total;
            if s + r < total then Divides(x + q * total + r, total, b + q, s + r)
            else Divides(x + q * total + r, total, b + q + 1, s + r - total)
  {
    var b, s := x / total, x % total;
    assert x == b * total + s;
    if s + r < total {
      assert (b + q) * total == b * total + q * total;
      DivisionIsUnique(x + q * total + r, total, b + q, s + r);
    } else {
      assert (b + q + 1) * total == b * total + q * total + total;
      DivisionIsUnique(x + q * total + r, total, b + q + 1, s + r - total);
    }
  }

  predicate Divides(x: int, total: int, q: int, r: int) {
    0 < total && x / total == q && x % total == r
  }

  lemma CoveredWindow(x: nat, q: nat, r: nat, total: int, lo: int, w: int)
    requires 0 <= lo && 0 <= w && lo + w <= total && r < total
    ensures 0 <= x + q * total + r
    ensures var d := Covered(x + q * total + r, total, lo, w) - Covered(x, total, lo, w) - q * w;
            0 <= d && r - (total - w) <= d && d <= w && d <= r
  {
    var b, s := x / total, x % total;
    WindowDivision(x, q, r, total);
    ProductIsNat(q, total);
    ThreeProducts(b, q, w);
  }

  lemma ThreeProducts(b: int, q: int, w: int)
    ensures (b + q) * w == b * w + q * w && (b + q + 1) * w == b * w + q * w + w
  {
  }

  function Max(a: int, b: int): int {
    if a < b then b else a
  }

  function Min(a: int, b: int): int {
    if a < b then a else b
  }

  /** Of any `q` full cycles and `r` more consecutive tickets among which the counter does not wrap, an endpoint gets
      its weight per cycle, and of the rest no more than its weight and no less than what the others cannot take. */
  lemma WindowShares(ws: seq<int>, i: nat, b: nat, q: nat, r: nat)
    requires Weights(ws) && Total(ws) < HALF && i < |ws| && r < Total(ws)
    requires b + q * Total(ws) + r <= U64
    ensures 0 <= q * Total(ws)
    ensures q * ws[i] + Max(0, r - (Total(ws) - ws[i])) <= Times(ws, i, b, q * Total(ws) + r)
            <= q * ws[i] + Min(ws[i], r)
  {
    ShareBounds(ws, i);
    ProductIsNat(q, Total(ws));
    var n := q * Total(ws) + r;
    TimesIsCovered(ws, i, b, n);
    CoveredWindow(b, q, r, Total(ws), Prefix(ws, i), ws[i]);
    assert b + n == b + q * Total(ws) + r;
  }

  lemma ProductIsNat(q: nat, t: int)
    requires t > 0
    ensures 0 <= q * t
  {
  }

  /** A full cycle of tickets gives every endpoint exactly its weight, unless the counter wraps in it. */
  lemma CycleIsExact(ws: seq<int>, i: nat, b: nat)
    requires Weights(ws) && Total(ws) < HALF && i < |ws| && b + Total(ws) <= U64
    ensures Total(ws) > 0 && Times(ws, i, b, Total(ws)) == ws[i]
  {
    ShareBounds(ws, i);
    WindowShares(ws, i, b, 1, 0);
  }

  // ---------- Cycles in which the counter wraps ----------

  ghost predicate EveryCycleIsExact(ws: seq<int>)
    requires Weights(ws) && Total(ws) > 0
  {
    forall i: nat, b: nat | i < |ws| && b < U64 :: Times(ws, i, b, Total(ws)) == ws[i]
  }

  lemma TotalIsPositive(ws: seq<int>)
    requires Weights(ws)
    ensures Total(ws) > 0
  {
    PrefixGrows(ws, 0, |ws|);
  }

  /** A window and the next one differ by the first and the last ticket. */
  lemma {:induction false} WindowShifts(ws: seq<int>, i: nat, b: nat, n: nat)
    requires Weights(ws)
    ensures Times(ws, i, b, n) + Once(ws, i, Ticket(b, n)) == Once(ws, i, Ticket(b, 0)) + Times(ws, i, b + 1, n)
  {
    if n == 0 {
    } else {
      WindowShifts(ws, i, b, n - 1);
      assert b + 1 + (n - 1) == b + n;
    }
  }

  /** The counter starts over. */
  lemma {:induction false} TimesFromTheWrap(ws: seq<int>, i: nat, n: nat)
    requires Weights(ws)
    ensures Times(ws, i, U64, n) == Times(ws, i, 0, n)
  {
    if n == 0 {
    } else {
      TimesFromTheWrap(ws, i, n - 1);
      WrapsAround(n - 1);
    }
  }

  lemma WrapsAround(k: nat)
    ensures Ticket(U64, k) == Ticket(0, k)
  {
  }

  /** A ticket and the one a cycle later that differ in picking `i` break one of two cycles. */
  lemma DifferenceBreaksACycle(ws: seq<int>, i: nat, b: nat)
    requires Weights(ws) && Total(ws) > 0 && i < |ws| && b < U64
    requires Once(ws, i, Ticket(b, 0)) != Once(ws, i, Ticket(b, Total(ws)))
    ensures !EveryCycleIsExact(ws)
  {
    var next := if b + 1 == U64 then 0 else b + 1;
    WindowShifts(ws, i, b, Total(ws));
    TimesFromTheWrap(ws, i, Total(ws));
    assert Times(ws, i, b, Total(ws)) != Times(ws, i, next, Total(ws));
  }

  lemma LastResidues(total: int, s: int)
    requires 0 < s < total < HALF && s == U64 % total
    ensures (U64 - total) % total == s && (U64 - 1) % total == s - 1
  {
    var q := U64 / total;
    assert U64 == q * total + s;
    assert (q - 1) * total == q * total - total;
    DivisionIsUnique(U64 - total, total, q - 1, s);
    DivisionIsUnique(U64 - 1, total, q, s - 1);
  }

  /** Owners of the residues go up. */
  lemma PickedGrows(ws: seq<int>, x: nat, y: nat)
    requires Weights(ws) && Total(ws) < HALF && Total(ws) > 0 && x % Total(ws) <= y % Total(ws)
    ensures Picked(ws, x) <= Picked(ws, y)
  {
    var i, j := Picked(ws, x), Picked(ws, y);
    PickedIff(ws, x, i);
    PickedIff(ws, y, j);
    if j < i { PrefixGrows(ws, j + 1, i); }
  }

  /** Where the wrap leaves a remainder, the cycles around it tell two endpoints apart. */
  lemma RemainderBreaksACycle(ws: seq<int>)
    requires Weights(ws) && 0 < Total(ws) < HALF && |ws| > 1 && U64 % Total(ws) != 0
    ensures !EveryCycleIsExact(ws)
  {
    var total, last := Total(ws), |ws| - 1;
    LastResidues(total, U64 % total);
    FirstAndLast(ws);
    TicketsAtTheWrap(total);
    PickedGrows(ws, U64 - 1, U64 - total);
    if Picked(ws, U64 - total) != 0 {
      DifferenceBreaksACycle(ws, 0, U64 - total);
    } else {
      DifferenceBreaksACycle(ws, last, U64 - 1);
    }
  }

  lemma TicketsAtTheWrap(total: nat)
    requires 0 < total < HALF
    ensures Ticket(U64 - total, 0) == U64 - total && Ticket(U64 - total, total) == 0
    ensures Ticket(U64 - 1, 0) == U64 - 1 && Ticket(U64 - 1, total) == total - 1
  {
  }

  lemma FirstAndLast(ws: seq<int>)
    requires Weights(ws) && 0 < Total(ws) < HALF
    ensures Picked(ws, 0) == 0 && Picked(ws, Total(ws) - 1) == |ws| - 1
  {
    SmallModulo(0, Total(ws));
    SmallModulo(Total(ws) - 1, Total(ws));
    ShareBounds(ws, 0);
    ShareBounds(ws, |ws| - 1);
    PickedIff(ws, 0, 0);
    PickedIff(ws, Total(ws) - 1, |ws| - 1);
  }

  /** The remainders go on over the wrap. */
  lemma NoRemainderAtTheWrap(total: int, x: nat)
    requires 0 < total && U64 % total == 0
    ensures (x % U64) % total == x % total
  {
    var m, q, y := U64 / total, x / U64, x % U64;
    assert x == q * U64 + y && U64 == m * total;
    var r, d := y % total, y / total;
    assert (q * m + d) * total == q * (m * total) + d * total;
    DivisionIsUnique(x, total, q * m + d, r);
  }

  lemma {:induction false} TimesIsCoveredOverTheWrap(ws: seq<int>, i: nat, b: nat, n: nat)
    requires Weights(ws) && Total(ws) < HALF && i < |ws| && Total(ws) > 0 && U64 % Total(ws) == 0
    ensures Times(ws, i, b, n)
            == Covered(b + n, Total(ws), Prefix(ws, i), ws[i]) - Covered(b, Total(ws), Prefix(ws, i), ws[i])
  {
    if n == 0 {
    } else {
      TimesIsCoveredOverTheWrap(ws, i, b, n - 1);
      ShareBounds(ws, i);
      CoveredNext(b + (n - 1), Total(ws), Prefix(ws, i), ws[i]);
      PickedIff(ws, Ticket(b, n - 1), i);
      NoRemainderAtTheWrap(Total(ws), b + (n - 1));
    }
  }

  lemma {:induction false} OnlyOneIsPicked(ws: seq<int>, b: nat, n: nat)
    requires Weights(ws) && |ws| == 1
    ensures Times(ws, 0, b, n) == n
  {
    if n == 0 {
    } else {
      OnlyOneIsPicked(ws, b, n - 1);
    }
  }

  /** Every cycle, those over the wrap of the counter included, gives every endpoint exactly its weight if and only if
      there is one endpoint only, or the weights add up to a divisor of 2^64. */
  lemma EveryCycleIsExactIff(ws: seq<int>)
    requires Weights(ws) && Total(ws) < HALF
    ensures Total(ws) > 0
    ensures EveryCycleIsExact(ws) <==> |ws| == 1 || U64 % Total(ws) == 0
  {
    TotalIsPositive(ws);
    if |ws| == 1 {
      forall i: nat, b: nat | i < |ws| && b < U64 ensures Times(ws, i, b, Total(ws)) == ws[i] {
        OnlyOneIsPicked(ws, b, Total(ws));
        assert Prefix(ws, 1) == Prefix(ws, 0) + ws[0];
      }
    } else if U64 % Total(ws) == 0 {
      forall i: nat, b: nat | i < |ws| && b < U64 ensures Times(ws, i, b, Total(ws)) == ws[i] {
        ShareBounds(ws, i);
        TimesIsCoveredOverTheWrap(ws, i, b, Total(ws));
        CoveredWindow(b, 1, 0, Total(ws), Prefix(ws, i), ws[i]);
      }
    } else {
      RemainderBreaksACycle(ws);
    }
  }

  /** For instance, of three endpoints of weight one, the cycle over the wrap picks the first twice and the
      last not at all. */
  lemma WrapFavoursTheFirst()
    ensures Weights([1, 1, 1]) && Total([1, 1, 1]) == 3
    ensures Times([1, 1, 1], 0, U64 - 1, 3) == 2 && Times([1, 1, 1], 2, U64 - 1, 3) == 0
  {
    var ws := [1, 1, 1];
    assert Prefix(ws, 0) == 0 && Prefix(ws, 1) == 1 && Prefix(ws, 2) == 2 && Prefix(ws, 3) == 3;
    TicketsOverTheWrap();
    PickedIff(ws, U64 - 1, 0);
    PickedIff(ws, 0, 0);
    PickedIff(ws, 1, 1);
    ThreeTimes(ws, 0, U64 - 1);
    ThreeTimes(ws, 2, U64 - 1);
  }

  lemma TicketsOverTheWrap()
    ensures Ticket(U64 - 1, 0) == U64 - 1 && Ticket(U64 - 1, 1) == 0 && Ticket(U64 - 1, 2) == 1 && (U64 - 1) % 3 == 0
  {
  }

  lemma ThreeTimes(ws: seq<int>, i: nat, b: nat)
    requires Weights(ws)
    ensures Times(ws, i, b, 3) == Once(ws, i, Ticket(b, 0)) + Once(ws, i, Ticket(b, 1)) + Once(ws, i, Ticket(b, 2))
  {
    assert Times(ws, i, b, 0) == 0;
    assert Times(ws, i, b, 1) == Once(ws, i, Ticket(b, 0));
    assert Times(ws, i, b, 2) == Times(ws, i, b, 1) + Once(ws, i, Ticket(b, 1));
  }

  // ---------- Plain round robin ----------

  /** Plain round robin picks what weighted round robin picks of equal weights of one. */
  lemma PlainIsWeightedByOne(n: nat, ticket: nat)
    requires 0 < n < HALF
    ensures Weights(Ones(n)) && Total(Ones(n)) == n && Picked(Ones(n), ticket) == ticket % n
  {
    assert forall i :: 0 <= i < n ==> Ones(n)[i] == 1;
    PrefixOfOnes(n, n);
    var i := ticket % n;
    PrefixOfOnes(n, i);
    PrefixOfOnes(n, i + 1);
    PickedIff(Ones(n), ticket, i);
  }

  function Ones(n: nat): seq<int> {
    seq(n, _ => 1)
  }

  lemma {:induction false} PrefixOfOnes(n: nat, i: nat)
    requires i <= n
    ensures Prefix(Ones(n), i) == i
  {
    if i == 0 {
    } else {
      PrefixOfOnes(n, i - 1);
    }
  }

  /** How often `m` plain picks from counter `b` on pick endpoint `i` of `n`. */
  function PlainTimes(n: nat, i: nat, b: nat, m: nat): nat
    requires n > 0
  {
    if m == 0 then 0 else PlainTimes(n, i, b, m - 1) + if Ticket(b, m - 1) % n == i then 1 else 0
  }

  lemma {:induction false} PlainTimesIsWeighted(n: nat, i: nat, b: nat, m: nat)
    requires 0 < n < HALF && i < n
    ensures Weights(Ones(n)) && PlainTimes(n, i, b, m) == Times(Ones(n), i, b, m)
  {
    if m == 0 {
      PlainIsWeightedByOne(n, 0);
    } else {
      PlainTimesIsWeighted(n, i, b, m - 1);
      PlainIsWeightedByOne(n, Ticket(b, m - 1));
    }
  }

  lemma WindowOfOne(ws: seq<int>, i: nat, b: nat, q: nat)
    requires Weights(ws) && Total(ws) < HALF && i < |ws| && ws[i] == 1 && Total(ws) > 0 && b + q * Total(ws) <= U64
    ensures 0 <= q * Total(ws) && Times(ws, i, b, q * Total(ws)) == q
  {
    WindowShares(ws, i, b, q, 0);
    assert q * ws[i] == q;
  }

  /** Plain round robin picks each of `n` endpoints exactly `q` times in `q * n` picks, unless the counter wraps. */
  lemma PlainIsExact(n: nat, i: nat, b: nat, q: nat)
    requires 0 < n < HALF && i < n && b + q * n <= U64
    ensures 0 <= q * n && PlainTimes(n, i, b, q * n) == q
  {
    ProductIsNat(q, n);
    PlainTimesIsWeighted(n, i, b, q * n);
    PlainIsWeightedByOne(n, 0);
    WindowOfOne(Ones(n), i, b, q);
  }

  ghost predicate EveryTurnIsExact(n: nat)
    requires n > 0
  {
    forall i: nat, b: nat | i < n && b < U64 :: PlainTimes(n, i, b, n) == 1
  }

  lemma TurnsAreCycles(n: nat)
    requires 0 < n < HALF
    ensures Weights(Ones(n)) && Total(Ones(n)) == n && EveryTurnIsExact(n) == EveryCycleIsExact(Ones(n))
  {
    PlainIsWeightedByOne(n, 0);
    forall i: nat, b: nat | i < n && b < U64
      ensures (PlainTimes(n, i, b, n) == 1) == (Times(Ones(n), i, b, n) == Ones(n)[i])
    {
      PlainTimesIsWeighted(n, i, b, n);
    }
  }

  /** It picks each exactly once in every `n` picks if and only if there is one, or their number divides 2^64. */
  lemma EveryTurnIsExactIff(n: nat)
    requires 0 < n < HALF
    ensures EveryTurnIsExact(n) <==> n == 1 || U64 % n == 0
  {
    TurnsAreCycles(n);
    EveryCycleIsExactIff(Ones(n));
  }

  // ---------- The pickers ----------

  class RoundRobinPicker {
    var next: int

    ghost predicate Valid() reads this {
      0 <= next < U64
    }

    constructor ()
      ensures Valid() && next == 0
    {
      next := 0;
    }

    /** Takes one ticket, unless there is nothing to pick. */
    method Pick<T>(endpoints: seq<T>) returns (r: Option<T>)
      requires Valid()
      modifies this
      ensures Valid()
      ensures endpoints == [] ==> r.None? && next == old(next)
      ensures endpoints != [] ==> r == Some(endpoints[old(next) % |endpoints|]) && next == (old(next) + 1) % U64
    {
      if |endpoints| == 0 { return None; }
      next := (next + 1) % U64;
      var index := next;
      var ticket := (index - 1) % U64;
      r := Some(endpoints[ticket % |endpoints|]);
    }
  }

  function EffectiveWeights<T>(endpoints: seq<T>, weight: T -> Int64): (r: seq<int>)
    ensures |r| == |endpoints| && forall i :: 0 <= i < |endpoints| ==> r[i] == Effective(weight(endpoints[i]))
    ensures endpoints != [] ==> Weights(r)
  {
    seq(|endpoints|, i requires 0 <= i < |endpoints| => Effective(weight(endpoints[i])))
  }

  class WeightedRoundRobinPicker {
    var next: int

    ghost predicate Valid() reads this {
      0 <= next < U64
    }

    constructor ()
      ensures Valid() && next == 0
    {
      next := 0;
    }

    /** Takes one ticket, unless there is nothing to pick or the weights add up to nothing positive. */
    method Pick<T>(endpoints: seq<T>, weight: T -> Int64) returns (r: Option<T>)
      requires Valid()
      modifies this
      ensures Valid()
      ensures endpoints == [] ==> r.None? && next == old(next)
      ensures endpoints != [] ==>
                var ws := EffectiveWeights(endpoints, weight);
                next == (if Wrap(Total(ws)) <= 0 then old(next) else (old(next) + 1) % U64) &&
                r == Some(endpoints[Picked(ws, next)])
    {
      if |endpoints| == 0 { return None; }
      var total := WrappedTotal(endpoints, weight);
      if total <= 0 { return Some(endpoints[0]); }
      var ticket := (next + 1) % U64;
      next := ticket;
      var i := Lookup(endpoints, weight, total, ticket);
      return Some(endpoints[i]);
    }
  }

  method WrappedTotal<T>(endpoints: seq<T>, weight: T -> Int64) returns (total: int)
    ensures total == Wrap(Total(EffectiveWeights(endpoints, weight)))
  {
    ghost var ws := EffectiveWeights(endpoints, weight);
    total := 0;
    for i := 0 to |endpoints|
      invariant total == Wrap(Prefix(ws, i))
    {
      WrapAdds(Prefix(ws, i), ws[i]);
      total := Wrap(total + Effective(weight(endpoints[i])));
    }
  }

  method Lookup<T>(endpoints: seq<T>, weight: T -> Int64, total: int, ticket: nat) returns (i: nat)
    requires endpoints != [] && 0 < total == Wrap(Total(EffectiveWeights(endpoints, weight)))
    ensures i == Picked(EffectiveWeights(endpoints, weight), ticket)
  {
    CursorInRange(EffectiveWeights(endpoints, weight), ticket);
    i := Find(endpoints, weight, ticket % total + 1);
  }

  /** Walks down the weights; the loop always returns. */
  method Find<T>(endpoints: seq<T>, weight: T -> Int64, c: int) returns (i: nat)
    requires endpoints != [] && 0 < c < HALF && c <= Total(EffectiveWeights(endpoints, weight))
    ensures i == OwnerFrom(EffectiveWeights(endpoints, weight), 0, c)
  {
    ghost var ws := EffectiveWeights(endpoints, weight);
    ghost var owner := OwnerFrom(ws, 0, c);
    var cursor := c;
    for k := 0 to |endpoints|
      invariant 0 < cursor < HALF && cursor == c - Prefix(ws, k) && k <= owner
    {
      cursor := Wrap(cursor - Effective(weight(endpoints[k])));
      if cursor <= 0 {
        OwnerIsUnique(ws, c, k, owner);
        return k;
      }
      OwnerIsLater(ws, k, c);
    }
    assert false;
  }

  lemma OwnerIsLater(ws: seq<int>, k: nat, c: int)
    requires Weights(ws) && k < |ws| && Prefix(ws, k + 1) < c <= Total(ws)
    ensures 0 < c && k < OwnerFrom(ws, 0, c)
  {
    PrefixGrows(ws, 0, k + 1);
    var r := OwnerFrom(ws, 0, c);
    if r <= k { PrefixGrows(ws, r + 1, k + 1); }
  }

  // ---------- Concurrent callers ----------

  /** A caller takes its ticket in one atomic step and looks up its endpoint later. */
  datatype Step = Take | Finish(n: nat)

  /** The shared counter, the tickets of the callers that have not looked up yet, and what was picked. */
  datatype Callers = Callers(next: nat, waiting: seq<nat>, picked: seq<nat>)

  /** The counter after one more atomic addition, which is the ticket. */
  function Next(c: Callers, s: Step, pick: nat -> nat): Callers {
    match s
    case Take => c.(next := Ticket(c.next, 1), waiting := c.waiting + [Ticket(c.next, 1)])
    case Finish(n) =>
      if n < |c.waiting| then
        c.(waiting := c.waiting[..n] + c.waiting[n + 1..], picked := c.picked + [pick(c.waiting[n])])
      else c
  }

  function Reached(c: Callers, ss: seq<Step>, pick: nat -> nat): Callers {
    if ss == [] then c else Next(Reached(c, ss[..|ss| - 1], pick), ss[|ss| - 1], pick)
  }

  function Takes(ss: seq<Step>): nat {
    if ss == [] then 0 else Takes(ss[..|ss| - 1]) + if ss[|ss| - 1].Take? then 1 else 0
  }

  function PicksOf(tickets: seq<nat>, pick: nat -> nat): (r: seq<nat>)
    ensures |r| == |tickets| && forall i :: 0 <= i < |tickets| ==> r[i] == pick(tickets[i])
  {
    seq(|tickets|, i requires 0 <= i < |tickets| => pick(tickets[i]))
  }

  /** The `n` tickets after counter `a`. */
  function Tickets(a: nat, n: nat): seq<nat> {
    seq(n, i requires 0 <= i < n => Ticket(a + 1, i))
  }

  /** What is picked and what the waiting callers will pick. */
  ghost function AllPicks(c: Callers, pick: nat -> nat): multiset<nat> {
    multiset(c.picked) + multiset(PicksOf(c.waiting, pick))
  }

  lemma TakeAddsAPick(c: Callers, pick: nat -> nat)
    ensures AllPicks(Next(c, Take, pick), pick) == AllPicks(c, pick) + multiset{pick(Ticket(c.next, 1))}
  {
    var t := Ticket(c.next, 1);
    PicksConcat(c.waiting, [t], pick);
    assert PicksOf([t], pick) == [pick(t)];
  }

  lemma FinishKeepsPicks(c: Callers, n: nat, pick: nat -> nat)
    ensures AllPicks(Next(c, Finish(n), pick), pick) == AllPicks(c, pick)
  {
    if n < |c.waiting| {
      var before, t, after := c.waiting[..n], c.waiting[n], c.waiting[n + 1..];
      assert c.waiting == before + [t] + after;
      PicksConcat(before + [t], after, pick);
      PicksConcat(before, [t], pick);
      PicksConcat(before, after, pick);
      assert PicksOf([t], pick) == [pick(t)];
    }
  }

  lemma PicksConcat(a: seq<nat>, b: seq<nat>, pick: nat -> nat)
    ensures PicksOf(a + b, pick) == PicksOf(a, pick) + PicksOf(b, pick)
  {
  }

  /** What the `n` tickets after counter `a` pick. */
  ghost function Served(a: nat, n: nat, pick: nat -> nat): multiset<nat> {
    multiset(PicksOf(Tickets(a, n), pick))
  }

  lemma ServedNext(a: nat, n: nat, pick: nat -> nat)
    ensures Served(a, 0, pick) == multiset{}
    ensures Served(a, n + 1, pick) == Served(a, n, pick) + multiset{pick(Ticket(a + 1, n))}
  {
    var t := Ticket(a + 1, n);
    assert Tickets(a, n + 1) == Tickets(a, n) + [t];
    PicksConcat(Tickets(a, n), [t], pick);
    assert PicksOf([t], pick) == [pick(t)];
  }

  /** After `taken` tickets from counter `a` on. */
  ghost predicate Accounts(c: Callers, a: nat, taken: nat, pick: nat -> nat) {
    c.next == Ticket(a, taken) && AllPicks(c, pick) == Served(a, taken, pick)
  }

  lemma TakeAccounts(c: Callers, a: nat, taken: nat, pick: nat -> nat)
    requires Accounts(c, a, taken, pick)
    ensures Accounts(Next(c, Take, pick), a, taken + 1, pick)
  {
    TakeAddsAPick(c, pick);
    NextTicket(a, taken);
    ServedNext(a, taken, pick);
  }

  lemma FinishAccounts(c: Callers, n: nat, a: nat, taken: nat, pick: nat -> nat)
    requires Accounts(c, a, taken, pick)
    ensures Accounts(Next(c, Finish(n), pick), a, taken, pick)
  {
    FinishKeepsPicks(c, n, pick);
  }

  lemma NextAccounts(c: Callers, s: Step, a: nat, taken: nat, pick: nat -> nat)
    requires Accounts(c, a, taken, pick)
    ensures Accounts(Next(c, s, pick), a, taken + if s.Take? then 1 else 0, pick)
  {
    match s
    case Take => TakeAccounts(c, a, taken, pick);
    case Finish(n) => FinishAccounts(c, n, a, taken, pick);
  }

  /** In every interleaving of callers, whatever a ticket picks: what was picked and what the waiting callers will pick
      is what as many consecutive tickets of the wrapping counter pick one after the other. */
  lemma {:induction false} InterleavingPicksTheSame(a: nat, ss: seq<Step>, pick: nat -> nat)
    requires a < U64
    ensures Accounts(Reached(Callers(a, [], []), ss, pick), a, Takes(ss), pick)
  {
    if ss == [] {
      ServedNext(a, 0, pick);
      assert Ticket(a, 0) == a;
    } else {
      var init, c := ss[..|ss| - 1], Reached(Callers(a, [], []), ss[..|ss| - 1], pick);
      InterleavingPicksTheSame(a, init, pick);
      NextAccounts(c, ss[|ss| - 1], a, Takes(init), pick);
    }
  }

  lemma NextTicket(a: nat, n: nat)
    ensures Ticket(Ticket(a, n), 1) == Ticket(a + 1, n) == Ticket(a, n + 1)
  {
  }

  /** What a ticket picks by weight. */
  function ByWeight(ws: seq<int>): nat -> nat {
    (ticket: nat) => if Weights(ws) then Picked(ws, ticket) else 0
  }

  /** Plain round robin goes by the counter before its own addition. */
  function ByTurn(n: nat): nat -> nat {
    (ticket: nat) => if n == 0 then 0 else (ticket + (U64 - 1)) % U64 % n
  }

  /** How often `n` tickets from `b` on pick `i`. */
  function Counted(pick: nat -> nat, i: nat, b: nat, n: nat): nat {
    if n == 0 then 0 else Counted(pick, i, b, n - 1) + if pick(Ticket(b, n - 1)) == i then 1 else 0
  }

  lemma {:induction false} ServedIsCounted(pick: nat -> nat, i: nat, a: nat, n: nat)
    ensures Served(a, n, pick)[i] == Counted(pick, i, a + 1, n)
  {
    if n == 0 {
      ServedNext(a, 0, pick);
    } else {
      var before, t := Served(a, n - 1, pick), pick(Ticket(a + 1, n - 1));
      ServedIsCounted(pick, i, a, n - 1);
      ServedNext(a, n - 1, pick);
      assert (before + multiset{t})[i] == before[i] + if t == i then 1 else 0;
    }
  }

  lemma {:induction false} TimesIsCounted(ws: seq<int>, i: nat, b: nat, n: nat)
    requires Weights(ws)
    ensures Times(ws, i, b, n) == Counted(ByWeight(ws), i, b, n)
  {
    if n == 0 {
    } else {
      TimesIsCounted(ws, i, b, n - 1);
    }
  }

  lemma {:induction false} PlainTimesIsCounted(k: nat, i: nat, a: nat, n: nat)
    requires k > 0
    ensures PlainTimes(k, i, a, n) == Counted(ByTurn(k), i, a + 1, n)
  {
    if n == 0 {
    } else {
      PlainTimesIsCounted(k, i, a, n - 1);
      TicketBefore(a, n - 1);
    }
  }

  lemma TicketBefore(a: nat, k: nat)
    ensures (Ticket(a + 1, k) + (U64 - 1)) % U64 == Ticket(a, k)
  {
  }

  /** So once all callers are done, an endpoint was picked as often as its share of the window says, by weight or
      by turn. */
  lemma TimesCountsPicks(a: nat, ss: seq<Step>, ws: seq<int>, k: nat, i: nat)
    requires a < U64 && Weights(ws) && k > 0
    ensures var c := Reached(Callers(a, [], []), ss, ByWeight(ws));
            c.waiting == [] ==> multiset(c.picked)[i] == Times(ws, i, a + 1, Takes(ss))
    ensures var c := Reached(Callers(a, [], []), ss, ByTurn(k));
            c.waiting == [] ==> multiset(c.picked)[i] == PlainTimes(k, i, a, Takes(ss))
  {
    InterleavingPicksTheSame(a, ss, ByWeight(ws));
    ServedIsCounted(ByWeight(ws), i, a, Takes(ss));
    TimesIsCounted(ws, i, a + 1, Takes(ss));
    InterleavingPicksTheSame(a, ss, ByTurn(k));
    ServedIsCounted(ByTurn(k), i, a, Takes(ss));
    PlainTimesIsCounted(k, i, a, Takes(ss));
  }

  // ---------- Endpoints by their own weights ----------

  /** The weights of the endpoints, 100 for one that is not positive, added up. */
  function SumOf<T>(endpoints: seq<T>, weight: T -> Int64): int {
    if endpoints == [] then 0
    else
      var w := weight(endpoints[|endpoints| - 1]);
      SumOf(endpoints[..|endpoints| - 1], weight) + if w <= 0 then 100 else w
  }

  lemma {:induction false} PrefixIsSum<T>(endpoints: seq<T>, weight: T -> Int64, m: nat)
    requires m <= |endpoints|
    ensures Prefix(EffectiveWeights(endpoints, weight), m) == SumOf(endpoints[..m], weight)
  {
    if m == 0 {
    } else {
      PrefixIsSum(endpoints, weight, m - 1);
      assert endpoints[..m][..m - 1] == endpoints[..m - 1];
    }
  }

  /** How often the first `m` endpoints that are `x` are picked by `n` tickets from `b` on. */
  function Tally<T(==)>(endpoints: seq<T>, ws: seq<int>, b: nat, n: nat, x: T, m: nat): nat
    requires Weights(ws) && m <= |endpoints|
  {
    if m == 0 then 0
    else Tally(endpoints, ws, b, n, x, m - 1) + if endpoints[m - 1] == x then Times(ws, m - 1, b, n) else 0
  }

  lemma {:induction false} TallyNext<T>(endpoints: seq<T>, ws: seq<int>, b: nat, n: nat, x: T, m: nat)
    requires Weights(ws) && m <= |endpoints| == |ws|
    ensures var p := Picked(ws, Ticket(b, n));
            Tally(endpoints, ws, b, n + 1, x, m)
            == Tally(endpoints, ws, b, n, x, m) + if p < m && endpoints[p] == x then 1 else 0
  {
    if m == 0 {
    } else {
      TallyNext(endpoints, ws, b, n, x, m - 1);
      TimesNext(ws, m - 1, b, n);
    }
  }

  lemma TimesNext(ws: seq<int>, i: nat, b: nat, n: nat)
    requires Weights(ws)
    ensures Times(ws, i, b, n + 1) == Times(ws, i, b, n) + if Picked(ws, Ticket(b, n)) == i then 1 else 0
    ensures Times(ws, i, b, 0) == 0
  {
  }

  lemma {:induction false} TallyOfNothing<T>(endpoints: seq<T>, ws: seq<int>, b: nat, x: T, m: nat)
    requires Weights(ws) && m <= |endpoints| == |ws|
    ensures Tally(endpoints, ws, b, 0, x, m) == 0
  {
    if m == 0 {
    } else {
      TallyOfNothing(endpoints, ws, b, x, m - 1);
      TimesNext(ws, m - 1, b, 0);
    }
  }

  /** Where each endpoint that is `x` is picked `w` times, `x` is picked that often for each of them. */
  lemma {:induction false} TallyIsShare<T>(endpoints: seq<T>, ws: seq<int>, b: nat, n: nat, x: T, w: int, m: nat)
    requires Weights(ws) && m <= |endpoints|
    requires forall i :: 0 <= i < m && endpoints[i] == x ==> Times(ws, i, b, n) == w
    ensures Tally(endpoints, ws, b, n, x, m) == multiset(endpoints[..m])[x] * w
  {
    if m == 0 {
    } else {
      TallyIsShare(endpoints, ws, b, n, x, w, m - 1);
      CountNext(endpoints, m - 1, x);
      OneMoreShare(multiset(endpoints[..m - 1])[x], w);
    }
  }

  lemma CountNext<T>(s: seq<T>, k: nat, x: T)
    requires k < |s|
    ensures multiset(s[..k + 1])[x] == multiset(s[..k])[x] + if s[k] == x then 1 else 0
  {
    assert s[..k + 1] == s[..k] + [s[k]];
  }

  lemma OneMoreShare(k: int, w: int)
    ensures (k + 1) * w == k * w + w
  {
  }

  /** The picks so far are those of consecutive tickets. */
  ghost predicate ArePicks<T(!new)>(picks: seq<T>, endpoints: seq<T>, ws: seq<int>, b: nat)
    requires Weights(ws) && |ws| == |endpoints|
  {
    forall x :: multiset(picks)[x] == Tally(endpoints, ws, b, |picks|, x, |endpoints|)
  }

  lemma NoPicks<T(!new)>(endpoints: seq<T>, ws: seq<int>, b: nat)
    requires Weights(ws) && |ws| == |endpoints|
    ensures ArePicks([], endpoints, ws, b)
  {
    forall x ensures Tally(endpoints, ws, b, 0, x, |endpoints|) == 0 {
      TallyOfNothing(endpoints, ws, b, x, |endpoints|);
    }
  }

  lemma OneMorePick<T(!new)>(picks: seq<T>, endpoints: seq<T>, ws: seq<int>, b: nat, x: T)
    requires Weights(ws) && |ws| == |endpoints| && ArePicks(picks, endpoints, ws, b)
    requires x == endpoints[Picked(ws, Ticket(b, |picks|))]
    ensures ArePicks(picks + [x], endpoints, ws, b)
  {
    forall y ensures multiset(picks + [x])[y] == Tally(endpoints, ws, b, |picks| + 1, y, |endpoints|) {
      TallyNext(endpoints, ws, b, |picks|, y, |endpoints|);
      assert multiset(picks + [x])[y] == multiset(picks)[y] + if x == y then 1 else 0;
    }
  }

  lemma CycleIsTheWeights<T(!new)>(picks: seq<T>, endpoints: seq<T>, weight: T -> Int64, b: nat)
    requires endpoints != [] && |picks| == SumOf(endpoints, weight) < HALF && b + |picks| <= U64
    requires ArePicks(picks, endpoints, EffectiveWeights(endpoints, weight), b)
    ensures forall x :: multiset(picks)[x] == multiset(endpoints)[x] * if weight(x) <= 0 then 100 else weight(x)
  {
    var ws := EffectiveWeights(endpoints, weight);
    assert endpoints[..|endpoints|] == endpoints;
    PrefixIsSum(endpoints, weight, |endpoints|);
    forall i | 0 <= i < |endpoints| ensures Times(ws, i, b, |picks|) == ws[i] {
      CycleIsExact(ws, i, b);
    }
    forall x ensures multiset(picks)[x] == multiset(endpoints)[x] * if weight(x) <= 0 then 100 else weight(x) {
      TallyIsShare(endpoints, ws, b, |picks|, x, if weight(x) <= 0 then 100 else weight(x), |endpoints|);
    }
  }

  /** As many calls as the weights add up to, the counter not wrapping, return each endpoint exactly as often as its own
      weight says, or 100 times if that is not positive; equal endpoints share their picks. */
  method PickCycle<T(!new)>(p: WeightedRoundRobinPicker, endpoints: seq<T>, weight: T -> Int64) returns (picks: seq<T>)
    requires p.Valid() && endpoints != []
    requires SumOf(endpoints, weight) < HALF && p.next + SumOf(endpoints, weight) < U64
    modifies p
    ensures p.Valid() && p.next == old(p.next) + |picks| && |picks| == SumOf(endpoints, weight)
    ensures forall x :: multiset(picks)[x] == multiset(endpoints)[x] * if weight(x) <= 0 then 100 else weight(x)
  {
    ghost var ws, b := EffectiveWeights(endpoints, weight), p.next + 1;
    var n := SumOf(endpoints, weight);
    assert endpoints[..|endpoints|] == endpoints;
    PrefixIsSum(endpoints, weight, |endpoints|);
    TotalIsPositive(ws);
    picks := [];
    NoPicks(endpoints, ws, b);
    for k := 0 to n
      invariant |picks| == k && p.Valid() && p.next + 1 == b + k && ArePicks(picks, endpoints, ws, b)
    {
      var r := p.Pick(endpoints, weight);
      OneMorePick(picks, endpoints, ws, b, r.value);
      picks := picks + [r.value];
    }
    CycleIsTheWeights(picks, endpoints, weight, b);
  }
}
