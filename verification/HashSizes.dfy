// The size and capacity tables of the hash table, and the choice of a size for a capacity.
module HashSizes {

  // Past the listed ones the C tables are zero.
  const LAST_INDEX: nat := 44
  const MAX_ITEMS: nat := 3241355160

  function Size(idx: nat): nat {
    match idx
    case 0 => 0 case 1 => 3 case 2 => 7 case 3 => 13 case 4 => 23 case 5 => 41 case 6 => 71 case 7 => 127
    case 8 => 191 case 9 => 251 case 10 => 383 case 11 => 631 case 12 => 1087 case 13 => 1723
    case 14 => 2803 case 15 => 4523 case 16 => 7351 case 17 => 11959 case 18 => 19447 case 19 => 31231
    case 20 => 50683 case 21 => 81919 case 22 => 132607 case 23 => 214519 case 24 => 346607
    case 25 => 561109 case 26 => 907759 case 27 => 1468927 case 28 => 2376191 case 29 => 3845119
    case 30 => 6221311 case 31 => 10066421 case 32 => 16287743 case 33 => 26354171 case 34 => 42641881
    case 35 => 68996069 case 36 => 111638519 case 37 => 180634607 case 38 => 292272623 case 39 => 472907251
    case 40 => 765180413 case 41 => 1238087663 case 42 => 2003267557 case 43 => 3241355263
    case _ => 5244622819
  }

  function Capacity(idx: nat): nat {
    match idx
    case 0 => 0 case 1 => 3 case 2 => 6 case 3 => 11 case 4 => 19 case 5 => 32 case 6 => 52 case 7 => 85
    case 8 => 118 case 9 => 155 case 10 => 237 case 11 => 390 case 12 => 672 case 13 => 1065 case 14 => 1732
    case 15 => 2795 case 16 => 4543 case 17 => 7391 case 18 => 12019 case 19 => 19302 case 20 => 31324
    case 21 => 50629 case 22 => 81956 case 23 => 132580 case 24 => 214215 case 25 => 346784
    case 26 => 561026 case 27 => 907847 case 28 => 1468567 case 29 => 2376414 case 30 => 3844982
    case 31 => 6221390 case 32 => 10066379 case 33 => 16287773 case 34 => 26354132 case 35 => 42641916
    case 36 => 68996399 case 37 => 111638327 case 38 => 180634415 case 39 => 292272755 case 40 => 472907503
    case 41 => 765180257 case 42 => 1238087439 case 43 => 2003267722
    case _ => 3241355160
  }

  // The load factor never exceeds one, and larger tables hold more.
  lemma TableLaws(idx: nat)
    requires idx <= LAST_INDEX
    ensures Capacity(idx) <= Size(idx)
    ensures idx < LAST_INDEX ==> Capacity(idx) < Capacity(idx + 1)
    ensures idx > 0 <==> Capacity(idx) > 0
  {
  }

  // From the eighth size on, the capacity is the size by the golden ratio, rounded.
  lemma GoldenLoad(idx: nat)
    requires 8 <= idx <= LAST_INDEX
    ensures -5_000_000_000 <= 10_000_000_000 * Capacity(idx) - 6_180_339_887 * Size(idx) <= 5_000_000_000
  {
  }

  // Each size is about the sum of the two before it.
  lemma GoldenGrowth(idx: nat)
    requires idx + 2 <= LAST_INDEX
    ensures -575 <= Size(idx + 2) - Size(idx + 1) - Size(idx) <= 575
  {
  }

  // The first size whose capacity is enough.
  ghost predicate LeastFor(idx: nat, capacity: nat) {
    && idx <= LAST_INDEX && capacity <= Capacity(idx)
    && forall i :: 0 <= i < idx ==> Capacity(i) < capacity
  }

  method IndexForCapacity(capacity: nat) returns (idx: nat)
    requires capacity <= MAX_ITEMS
    ensures LeastFor(idx, capacity)
  {
    assert Capacity(LAST_INDEX) == MAX_ITEMS;
    idx := 0;
    while Capacity(idx) < capacity
      invariant idx <= LAST_INDEX
      invariant forall i :: 0 <= i < idx ==> Capacity(i) < capacity
      decreases LAST_INDEX - idx
    {
      idx := idx + 1;
    }
  }
}
