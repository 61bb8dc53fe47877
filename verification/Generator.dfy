/**
 * The 64-bit linear congruential generator behind the random customer lookup, what its low bits
 * visit, and when the lookup can run out of attempts.
 */
module Generator {
  import opened Arithmetic
  import opened Ledger
  import opened Numbers
  import opened Records

  const MULTIPLIER := 6364136223846793005
  const RANDOM_RETRY_LIMIT := 1000

  function Pow2(k: nat): (r: nat)
    ensures r >= 1
  {
    Power(2, k)
  }

  /** One draw: a 64-bit wrapping multiply and add. */
  function Draw(state: int): int {
    (state * MULTIPLIER + 1) % Pow2(64)
  }

  function After(state: int, n: nat): int {
    if n == 0 then state else Draw(After(state, n - 1))
  }

  /** The same sequence of draws without the wrap. */
  function Unwrapped(state: int, n: nat): int {
    if n == 0 then state else Unwrapped(state, n - 1) * MULTIPLIER + 1
  }

  /** The low bits of a wrapped number are those of the number. */
  lemma LowBitsOfWrapped(x: int, k: nat)
    requires k <= 64
    ensures x % Pow2(64) % Pow2(k) == x % Pow2(k)
  {
    var m, p, q := Pow2(64), Pow2(k), Pow2(64 - k);
    PowerSum(2, k, 64 - k);
    DivForm(x, m);
    MulForm(p, q, x / m);
    ModShift(x % m, p, q * (x / m));
  }

  lemma CongruentStep(x: int, y: int, p: int, c: int)
    requires p >= 1 && x % p == y % p
    ensures (x * c + 1) % p == (y * c + 1) % p
  {
    var d := x / p - y / p;
    DivForm(x, p);
    DivForm(y, p);
    MulForm(p, x / p, -(y / p));
    assert x == y + p * d;
    MulForm(y, p * d, c);
    MulForm(p, d, c);
    ModShift(y * c + 1, p, d * c);
  }

  lemma DrawLowBits(x: int, y: int, k: nat)
    requires k <= 64 && x % Pow2(k) == y % Pow2(k)
    ensures Draw(x) % Pow2(k) == (y * MULTIPLIER + 1) % Pow2(k)
  {
    CongruentStep(x, y, Pow2(k), MULTIPLIER);
    LowBitsOfWrapped(x * MULTIPLIER + 1, k);
  }

  lemma {:induction false} AfterLowBits(state: int, n: nat, k: nat)
    requires k <= 64
    ensures After(state, n) % Pow2(k) == Unwrapped(state, n) % Pow2(k)
  {
    if n > 0 {
      AfterLowBits(state, n - 1, k);
      DrawLowBits(After(state, n - 1), Unwrapped(state, n - 1), k);
    }
  }

  // Jumping 2^k draws at once.

  /** The factor and offset of 2^k draws. */
  function Jump(k: nat): (int, int) {
    if k == 0 then (MULTIPLIER, 1)
    else var (a, b) := Jump(k - 1); (a * a, b * (a + 1))
  }

  lemma TwoJumps(x: int, y: int, z: int, a: int, b: int)
    requires y == x * a + b && z == y * a + b
    ensures z == x * (a * a) + b * (a + 1)
  {
    MulForm(x * a, b, a);
    MulForm(x, a, a);
    MulForm(b, a, 1);
  }

  lemma {:induction false} JumpIsDraws(state: int, n: nat, k: nat)
    ensures Unwrapped(state, n + Pow2(k)) == Unwrapped(state, n) * Jump(k).0 + Jump(k).1
    decreases k
  {
    if k > 0 {
      var jump, half := Jump(k - 1), Pow2(k - 1);
      var middle, end := n + half, n + Pow2(k);
      JumpIsDraws(state, n, k - 1);
      JumpIsDraws(state, middle, k - 1);
      assert end == middle + half;
      TwoJumps(Unwrapped(state, n), Unwrapped(state, middle), Unwrapped(state, end), jump.0, jump.1);
    }
  }

  /** The factor of a jump is 1 modulo 2^(k+2), its offset an odd multiple of 2^k. */
  lemma {:induction false} JumpShape(k: nat) returns (u: int, v: int)
    ensures Jump(k).0 == 1 + 4 * Pow2(k) * u && Jump(k).1 == Pow2(k) * (2 * v + 1)
  {
    if k == 0 {
      u, v := 1591034055961698251, 0;
    } else {
      var p := Pow2(k - 1);
      var u0, v0 := JumpShape(k - 1);
      u := u0 + 2 * p * (u0 * u0);
      v := v0 + p * u0 * (2 * v0 + 1);
      SquareShape(p, u0);
      OffsetShape(p, u0, v0);
    }
  }

  lemma SquareShape(p: int, u: int)
    ensures var a := 1 + 4 * p * u; a * a == 1 + 4 * (2 * p) * (u + 2 * p * (u * u))
  {
    var t := p * u;
    assert (1 + 4 * t) * (1 + 4 * t) == 1 + 8 * t + 16 * (t * t);
    assert t * t == p * p * (u * u) by {
      MulForm(p * u, p, u);
      MulForm(p, u, p);
      MulForm(p * p, u, u);
    }
    MulForm(8 * p, u, 2 * p * (u * u));
    MulForm(p, p, u * u);
  }

  lemma OffsetShape(p: int, u: int, v: int)
    ensures p * (2 * v + 1) * (1 + 4 * p * u + 1) == (2 * p) * (2 * (v + p * u * (2 * v + 1)) + 1)
  {
    var o, t := 2 * v + 1, p * u;
    assert 1 + 4 * p * u + 1 == 2 * (1 + 2 * t);
    assert p * o * (2 * (1 + 2 * t)) == (2 * p) * (o * (1 + 2 * t)) by {
      MulForm(p, o, 2 * (1 + 2 * t));
      MulForm(2, p, o * (1 + 2 * t));
    }
    assert o * (1 + 2 * t) == o + 2 * (t * o);
  }

  lemma MoveShape(x: int, p: int, u: int, v: int)
    ensures x * (1 + 4 * p * u) + p * (2 * v + 1) == x + p + 2 * p * (2 * (u * x) + v)
  {
    MulForm(x, 1, 4 * p * u);
    assert x * (4 * p * u) == 2 * p * (2 * (u * x)) by {
      MulForm(4 * p, u, x);
    }
    MulForm(p, 2 * v, 1);
    MulForm(2 * p, 2 * (u * x), v);
    assert p * (2 * v) == 2 * p * v;
  }

  /** 2^k draws later the state has moved by an odd multiple of 2^k. */
  lemma JumpMoves(state: int, n: nat, k: nat) returns (w: int)
    ensures Unwrapped(state, n + Pow2(k)) == Unwrapped(state, n) + Pow2(k) + 2 * Pow2(k) * w
  {
    JumpIsDraws(state, n, k);
    var u, v := JumpShape(k);
    w := 2 * (u * Unwrapped(state, n)) + v;
    MoveShape(Unwrapped(state, n), Pow2(k), u, v);
  }

  // Coverage.

  lemma EvenHalf(x: int, p: int, m: int, h: int, r: int, w: int)
    requires m == 2 * p && 0 <= r < p && x == p * (2 * h) + r
    ensures x % m == r && (x + p + m * w) % m == r + p
  {
    MulForm(p, 2, h);
    DivUnique(x, m, h, r);
    MulForm(m, h, w);
    DivUnique(x + p + m * w, m, h + w, r + p);
  }

  lemma OddHalf(x: int, p: int, m: int, h: int, r: int, w: int)
    requires m == 2 * p && 0 <= r < p && x == p * (2 * h + 1) + r
    ensures x % m == r + p && (x + p + m * w) % m == r
  {
    MulForm(p, 2 * h, 1);
    MulForm(p, 2, h);
    DivUnique(x, m, h, r + p);
    MulForm(m, h, w);
    MulForm(m, h + w, 1);
    DivUnique(x + p + m * w, m, h + w + 1, r);
  }

  /** A number with residue r modulo p has residue r or r + p modulo 2p; moving it by an odd multiple of p swaps them. */
  lemma Halves(x: int, p: int, w: int)
    requires p >= 1
    ensures var r, y := x % p, x + p + 2 * p * w;
            (x % (2 * p) == r && y % (2 * p) == r + p) || (x % (2 * p) == r + p && y % (2 * p) == r)
  {
    var q := x / p;
    DivForm(x, p);
    if q % 2 == 0 {
      EvenHalf(x, p, 2 * p, q / 2, x % p, w);
    } else {
      OddHalf(x, p, 2 * p, q / 2, x % p, w);
    }
  }

  /** One of the two numbers has the wanted residue modulo 2p, if the first has it modulo p. */
  lemma HalfChoice(x: int, y: int, p: int, m: int, w: int, v: int)
    requires p >= 1 && m == 2 * p && 0 <= v < m && x % p == (if v < p then v else v - p) && y == x + p + m * w
    ensures x % m == v || y % m == v
  {
    Halves(x, p, w);
  }

  lemma {:induction false} UnwrappedCovers(state: int, n: nat, k: nat, v: nat) returns (i: nat)
    requires v < Pow2(k)
    ensures n <= i < n + Pow2(k) && Unwrapped(state, i) % Pow2(k) == v
  {
    if k == 0 {
      i := n;
    } else {
      var p, m := Pow2(k - 1), Pow2(k);
      i := UnwrappedCovers(state, n, k - 1, if v < p then v else v - p);
      var w := JumpMoves(state, i, k - 1);
      HalfChoice(Unwrapped(state, i), Unwrapped(state, i + p), p, m, w, v);
      if Unwrapped(state, i) % m != v {
        i := i + p;
      }
    }
  }

  /** In any 2^k consecutive draws the low k bits take every value. */
  lemma LowBitsCoverAll(state: int, n: nat, k: nat, v: nat) returns (i: nat)
    requires k <= 64 && v < Pow2(k)
    ensures n <= i < n + Pow2(k) && After(state, i) % Pow2(k) == v
  {
    i := UnwrappedCovers(state, n, k, v);
    AfterLowBits(state, i, k);
  }

  function Residues(state: int, n: nat, k: nat): (r: seq<int>)
    ensures |r| == n && forall i :: 0 <= i < n ==> r[i] == Unwrapped(state, i) % Pow2(k)
  {
    seq(n, i requires 0 <= i < n => Unwrapped(state, i) % Pow2(k))
  }

  function UpTo(n: nat): (r: set<int>)
    ensures |r| == n && forall x :: x in r <==> 0 <= x < n
  {
    if n == 0 then {} else UpTo(n - 1) + {n - 1}
  }

  /** And each only once. */
  lemma LowBitsVisitOnce(state: int, k: nat, i: nat, j: nat)
    requires k <= 64 && i < j < Pow2(k)
    ensures After(state, i) % Pow2(k) != After(state, j) % Pow2(k)
  {
    AfterLowBits(state, i, k);
    AfterLowBits(state, j, k);
    var p := Pow2(k);
    var r := Residues(state, p, k);
    if r[i] == r[j] {
      var others := r[..j] + r[j + 1..];
      forall v | 0 <= v < p
        ensures v in others
      {
        var at := UnwrappedCovers(state, 0, k, v);
        var a := if at == j then i else at;
        assert r[a] == v;
        assert others[if a < j then a else a - 1] == v;
      }
      assert UpTo(p) <= Elements(others);
      assert Elements(others) == UpTo(p) + (Elements(others) - UpTo(p));
      ElementsAtMostLength(others);
      assert false;
    }
  }

  // The generator and the lookup.

  lemma SixtyFourBits()
    ensures Pow2(64) == 18446744073709551616
  {
    assert Power(2, 4) == 16;
    PowerSum(2, 4, 4);
    PowerSum(2, 8, 8);
    PowerSum(2, 16, 16);
    PowerSum(2, 32, 32);
  }

  class RandomCustomerNumbers {
    var state: int

    ghost predicate Valid()
      reads this
    {
      0 <= state < Pow2(64)
    }

    constructor (seed: int)
      requires 0 <= seed < Pow2(64)
      ensures Valid() && state == seed
    {
      state := seed;
    }

    /** The next candidate; for a highest number of at least one it lies between one and that. */
    method NextCustomerNumber(highest: int) returns (candidate: int)
      requires Valid() && highest != 0
      modifies this
      ensures Valid() && state == Draw(old(state)) == (old(state) * 6364136223846793005 + 1) % 18446744073709551616
      ensures candidate == if highest >= 1 then state % highest + 1 else 1
      ensures highest >= 1 ==> 1 <= candidate <= highest
    {
      SixtyFourBits();
      state := (state * MULTIPLIER + 1) % Pow2(64);
      var bound := if highest >= 0 then highest else 1;
      candidate := state % bound + 1;
    }
  }

  /** The customer with the greatest number. */
  function Highest(s: Store): (n: int)
    requires |s.customers| > 0
    ensures n in s.customers && forall m :: m in s.customers ==> m <= n
  {
    var numbers := Ascending(s.customers.Keys);
    AscendingIsSorted(s.customers.Keys);
    var n := numbers[|numbers| - 1];
    assert forall m :: m in s.customers ==> m in numbers;
    n
  }

  /** What reading one customer gives: its row may be missing, or refuse to load. */
  function Lookup(s: Store, n: int): Option<Outcome> {
    if n !in s.customers then None
    else if ValidCustomer(CustomerAt(s, n)) then Some(Success(OneCustomer(CustomerAt(s, n))))
    else Some(Abend("CVR1"))
  }

  /** The candidate of attempt `i`. */
  function Candidate(state: int, highest: int, i: nat): int
    requires highest >= 1
  {
    After(state, i + 1) % highest + 1
  }

  /** Read `i + 1` sees `views(i + 1)`: the first of a thousand candidates that is there, or R. */
  ghost predicate IsSearch(views: nat -> Store, state: int, highest: int, o: Outcome)
    requires highest >= 1
  {
    || (exists i: nat :: i < 1000 && Lookup(views(i + 1), Candidate(state, highest, i)) == Some(o)
                         && forall j: nat :: j < i ==> Lookup(views(j + 1), Candidate(state, highest, j)) == None)
    || (o == Failure("R")
        && forall j: nat :: j < 1000 ==> Lookup(views(j + 1), Candidate(state, highest, j)) == None)
  }

  ghost predicate IsRandomLookup(views: nat -> Store, state: int, o: Outcome) {
    var s := views(0);
    if |s.customers| == 0 then o == Failure("1")
    else if Lookup(s, Highest(s)).value.Abend? then o == Abend("CVR1")
    else if Highest(s) < 1 then o == Failure("1")
    else IsSearch(views, state, Highest(s), o)
  }

  /** INQCUST for a random customer: each read sees the store as it then is. */
  method FindRandomCustomer(views: nat -> Store, generator: RandomCustomerNumbers) returns (o: Outcome)
    requires generator.Valid()
    modifies generator
    ensures generator.Valid() && IsRandomLookup(views, old(generator.state), o)
  {
    var s := views(0);
    if |s.customers| == 0 { return Failure("1"); }
    var highest := Highest(s);
    if !ValidCustomer(CustomerAt(s, highest)) { return Abend("CVR1"); }
    if highest < 1 { return Failure("1"); }
    var i := 0;
    while i < RANDOM_RETRY_LIMIT
      invariant 0 <= i <= RANDOM_RETRY_LIMIT && generator.Valid()
      invariant generator.state == After(old(generator.state), i)
      invariant forall j: nat :: j < i ==> Lookup(views(j + 1), Candidate(old(generator.state), highest, j)) == None
    {
      var candidate := generator.NextCustomerNumber(highest);
      assert candidate == Candidate(old(generator.state), highest, i);
      var found := Lookup(views(i + 1), candidate);
      if found.Some? { return found.value; }
      i := i + 1;
    }
    return Failure("R");
  }

  ghost predicate Fixed(views: nat -> Store) {
    forall i :: views(i) == views(0)
  }

  /** On a fixed store whose highest customer number is a power of two up to 512 the search never gives up. */
  lemma NeverExhausted(views: nat -> Store, state: int, o: Outcome, k: nat)
    requires IsRandomLookup(views, state, o) && Fixed(views)
    requires k <= 9 && |views(0).customers| > 0 && Highest(views(0)) == Pow2(k)
    ensures o != Failure("R")
  {
    var p := Pow2(k);
    var i := LowBitsCoverAll(state, 1, k, p - 1);
    PowersGrow(k, 9);
    assert Candidate(state, p, i - 1) == p;
    assert views(i) == views(0);
    assert Lookup(views(i - 1 + 1), Candidate(state, p, i - 1)).Some?;
  }

  lemma {:induction false} PowersGrow(a: nat, b: nat)
    requires a <= b
    ensures Pow2(a) <= Pow2(b)
  {
    if a < b {
      PowersGrow(a, b - 1);
    }
  }

  /** Beyond 512 it can: with one customer at a higher power of two some states miss it a thousand times. */
  lemma LargerPowersExhaust(s: Store, k: nat, o: Outcome)
    requires 10 <= k <= 33 && s.customers.Keys == {Pow2(k) as int} && ValidCustomer(CustomerAt(s, Pow2(k)))
    requires IsRandomLookup(_ => s, Pow2(k) - 1, o)
    ensures o == Failure("R")
  {
    var p := Pow2(k);
    var seed: int := p - 1;
    PowersGrow(10, k);
    assert Highest(s) == p;
    forall j: nat | j < RANDOM_RETRY_LIMIT
      ensures Candidate(seed, p, j) != p
    {
      LowBitsVisitOnce(seed, k, 0, j + 1);
      DivUnique(seed, p, 0, seed);
    }
  }
}
