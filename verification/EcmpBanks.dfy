/** Fine-grained ECMP: banks of next hops and the size of the bucket table. */
module EcmpBanks {
  import opened Texts

  // ----- greatest common divisors -----

  /** d divides n. */
  predicate Divides(d: nat, n: int) {
    d > 0 && n % d == 0
  }

  function Gcd(x: nat, y: nat): nat
    decreases y
  {
    if y == 0 then x else Gcd(y, x % y)
  }

  method CalculateGcd(x: nat, y: nat) returns (g: nat)
    ensures g == Gcd(x, y)
  {
    var b: nat := y;
    g := x;
    while b != 0
      invariant Gcd(g, b) == Gcd(x, y)
      decreases b
    {
      g, b := b, g % b;
    }
  }

  lemma Distribute(d: int, a: int, b: int)
    ensures d * (a + b) == d * a + d * b && d * (a - b) == d * a - d * b
  {
  }

  lemma AtLeast(d: nat, k: nat)
    requires k >= 1
    ensures d * k >= d
  {
    Distribute(d, k - 1, 1);
  }

  /** Quotient and remainder are unique. */
  lemma Unique(d: nat, q: int, r: nat, p: int, s: nat)
    requires d * q + r == d * p + s && r < d && s < d
    ensures q == p && r == s
  {
    Distribute(d, q, p);
    Distribute(d, p, q);
    if q > p {
      AtLeast(d, q - p);
      assert false;
    } else if q < p {
      AtLeast(d, p - q);
      assert false;
    }
  }

  lemma DivisionUnique(n: int, d: nat, q: int)
    requires d > 0 && n == d * q
    ensures n / d == q && n % d == 0
  {
    Unique(d, q, 0, n / d, n % d);
  }

  lemma Multiple(d: nat, k: int)
    requires d > 0
    ensures Divides(d, d * k)
  {
    DivisionUnique(d * k, d, k);
  }

  lemma Quotient(d: nat, n: int)
    requires Divides(d, n)
    ensures d > 0 && n == d * (n / d)
  {
  }

  lemma Product(d: int, p: int, u: int)
    ensures (d * p) * u == d * (p * u)
  {
  }

  lemma Combined(d: nat, a: int, b: int, u: int, v: int)
    requires Divides(d, a) && Divides(d, b)
    ensures Divides(d, a * u + b * v)
  {
    hide Divides;
    Quotient(d, a);
    Quotient(d, b);
    var p, q := a / d, b / d;
    Product(d, p, u);
    Product(d, q, v);
    Distribute(d, p * u, q * v);
    Multiple(d, p * u + q * v);
  }

  lemma Chained(d: nat, e: nat, n: int)
    requires Divides(d, e) && Divides(e, n)
    ensures Divides(d, n)
  {
    Quotient(e, n);
    assert Divides(d, 0);
    Combined(d, e, 0, n / e, 0);
  }

  lemma BezoutStep(x: nat, y: nat, q: int, r: int, s: int, t: int)
    requires x == y * q + r
    ensures y * s + r * t == x * t + y * (s - q * t)
  {
    Product(y, q, t);
    Distribute(y, s, q * t);
    Distribute(t, y * q, r);
  }

  /** The Euclid loop finds a common divisor that is a combination of its arguments. */
  lemma {:induction false} Bezout(x: nat, y: nat) returns (u: int, v: int)
    requires x > 0
    ensures Gcd(x, y) > 0 && Gcd(x, y) == x * u + y * v
    ensures Divides(Gcd(x, y), x) && Divides(Gcd(x, y), y)
    decreases y
  {
    hide Divides;
    if y == 0 {
      u, v := 1, 0;
      Multiple(x, 1);
      Multiple(x, 0);
    } else {
      var r, q := x % y, x / y;
      var s, t := Bezout(y, r);
      var g := Gcd(y, r);
      u, v := t, s - q * t;
      BezoutStep(x, y, q, r, s, t);
      Combined(g, y, r, q, 1);
    }
  }

  /** The loop computes the greatest common divisor: every common divisor divides it. */
  lemma GcdGreatest(x: nat, y: nat, d: nat)
    requires x > 0
    ensures Divides(Gcd(x, y), x) && Divides(Gcd(x, y), y)
    ensures Divides(d, x) && Divides(d, y) ==> Divides(d, Gcd(x, y))
  {
    var u, v := Bezout(x, y);
    if Divides(d, x) && Divides(d, y) {
      Combined(d, x, y, u, v);
    }
  }

  // ----- least common multiples -----

  function Lcm(x: nat, y: nat): nat
    requires x > 0 && y > 0
  {
    GcdPositive(x, y);
    x * y / Gcd(x, y)
  }

  lemma GcdPositive(x: nat, y: nat)
    requires x > 0
    ensures Gcd(x, y) > 0
  {
    var _, _ := Bezout(x, y);
  }

  lemma Positive(a: nat, b: nat)
    requires a > 0 && b > 0
    ensures a * b > 0
  {
  }

  lemma QuotientPositive(g: nat, x: nat)
    requires x > 0 && Divides(g, x)
    ensures x / g > 0
  {
    Quotient(g, x);
  }

  lemma LcmForm(x: nat, y: nat)
    requires x > 0 && y > 0
    ensures Gcd(x, y) > 0
    ensures Lcm(x, y) == x * (y / Gcd(x, y)) == y * (x / Gcd(x, y)) > 0
    ensures Lcm(x, y) * Gcd(x, y) == x * y
  {
    hide Divides, Gcd;
    var g := Gcd(x, y);
    GcdPositive(x, y);
    GcdGreatest(x, y, 1);
    Quotient(g, x);
    Quotient(g, y);
    QuotientPositive(g, y);
    var p, q := x / g, y / g;
    Product(g, q, x);
    Product(g, p, y);
    Commute(x, y);
    Commute(q, x);
    Commute(p, y);
    DivisionUnique(x * y, g, x * q);
    DivisionUnique(x * y, g, y * p);
    Positive(x, q);
    Commute(g, x * q);
  }

  lemma Commute(a: int, b: int)
    ensures a * b == b * a
  {
  }

  /** The least common multiple: a multiple of both that divides every other. */
  lemma LcmLeast(x: nat, y: nat, m: int)
    requires x > 0 && y > 0
    ensures Lcm(x, y) > 0 && Divides(x, Lcm(x, y)) && Divides(y, Lcm(x, y))
    ensures Divides(x, m) && Divides(y, m) ==> Divides(Lcm(x, y), m)
  {
    hide Divides, Gcd, Lcm;
    LcmForm(x, y);
    var g, l := Gcd(x, y), Lcm(x, y);
    Multiple(x, y / g);
    Multiple(y, x / g);
    if Divides(x, m) && Divides(y, m) {
      var u, v := Bezout(x, y);
      Quotient(x, m);
      Quotient(y, m);
      var p, q := m / x, m / y;
      Scaled(x, y, u, v, m, p, q);
      var k := q * u + p * v;
      Commute(l, g);
      Product(g, l, k);
      Cancel(g, m, l * k);
      Multiple(l, k);
    }
  }

  /** A common multiple of x and y, times a combination of them, is a multiple of their product. */
  lemma Scaled(x: nat, y: nat, u: int, v: int, m: int, p: int, q: int)
    requires m == x * p && m == y * q
    ensures (x * u + y * v) * m == (x * y) * (q * u + p * v)
  {
    Distribute(m, x * u, y * v);
    Rearranged(x, u, y, q);
    Rearranged(y, v, x, p);
    Commute(x, y);
    Distribute(x * y, q * u, p * v);
  }

  lemma Rearranged(x: int, u: int, y: int, q: int)
    ensures (y * q) * (x * u) == (x * y) * (q * u)
  {
    Product(y, q, x * u);
    Product(x, y, q * u);
    Product(q, x, u);
    Commute(q, x);
    Product(x, q, u);
    Product(y, x, q * u);
    Commute(x, y);
  }

  lemma Cancel(g: nat, a: int, b: int)
    requires g > 0 && g * a == g * b
    ensures a == b
  {
    Unique(g, a, 0, b, 0);
  }

  /** The least common multiple of 1 to n. */
  function LcmUpTo(n: nat): (r: nat)
    ensures r > 0
  {
    if n <= 1 then 1 else LcmLeast(LcmUpTo(n - 1), n, 0); Lcm(LcmUpTo(n - 1), n)
  }

  /** It is a multiple of each of 1 to n, and divides every number that is. */
  lemma {:induction false} LcmUpToLeast(n: nat, m: int)
    ensures forall i :: 1 <= i <= n ==> Divides(i, LcmUpTo(n))
    ensures (forall i :: 1 <= i <= n ==> Divides(i, m)) ==> Divides(LcmUpTo(n), m)
  {
    hide Divides;
    if n == 0 {
      OneDivides(m);
    } else if n == 1 {
      OneDivides(m);
      OneDivides(1);
    } else {
      var before := LcmUpTo(n - 1);
      LcmUpToLeast(n - 1, m);
      LcmLeast(before, n, m);
      forall i | 1 <= i < n
        ensures Divides(i, LcmUpTo(n))
      {
        Chained(i, before, LcmUpTo(n));
      }
    }
  }

  lemma OneDivides(m: int)
    ensures Divides(1, m)
  {
  }

  // ----- banks -----

  /** Next hop addresses with their devices, and with the banks of those. */
  type Devices = seq<(string, string)>
  type Banks = seq<(string, nat)>

  function InsertName(names: seq<string>, n: string): seq<string> {
    if names == [] then [n]
    else if names[0] == n then names
    else if StrLeq(n, names[0]) then [n] + names
    else [names[0]] + InsertName(names[1..], n)
  }

  /** The different devices, in order. */
  function SortedDevices(hops: Devices): seq<string> {
    if hops == [] then [] else InsertName(SortedDevices(hops[1..]), hops[0].1)
  }

  predicate Ascending(names: seq<string>) {
    forall i, j :: 0 <= i < j < |names| ==> StrLeq(names[i], names[j]) && names[i] != names[j]
  }

  lemma InFront(names: seq<string>, n: string)
    requires Ascending(names) && names != [] && StrLeq(n, names[0]) && names[0] != n
    ensures Ascending([n] + names)
  {
    hide StrLeq;
    forall j | 0 <= j < |names|
      ensures StrLeq(n, names[j]) && names[j] != n
    {
      if j > 0 {
        StrTransitive(n, names[0], names[j]);
        if names[j] == n {
          StrAntisymmetric(n, names[0]);
        }
      }
    }
  }

  lemma Behind(first: string, names: seq<string>)
    requires Ascending(names) && forall d :: d in names ==> StrLeq(first, d) && first != d
    ensures Ascending([first] + names)
  {
    hide StrLeq;
    assert forall j :: 0 <= j < |names| ==> names[j] in names;
  }

  lemma {:induction false} InsertKeeps(names: seq<string>, n: string)
    requires Ascending(names)
    ensures Ascending(InsertName(names, n))
    ensures forall d :: d in InsertName(names, n) <==> d == n || d in names
  {
    hide StrLeq, Ascending;
    if names == [] {
      OneName(n);
    } else if names[0] != n {
      var first, rest := names[0], names[1..];
      assert names == [first] + rest;
      if StrLeq(n, first) {
        InFront(names, n);
      } else {
        StrTotal(n, first);
        RestAscending(names);
        InsertKeeps(rest, n);
        Behind(first, InsertName(rest, n));
      }
    }
  }

  lemma OneName(n: string)
    ensures Ascending([n])
  {
  }

  lemma RestAscending(names: seq<string>)
    requires Ascending(names) && names != []
    ensures Ascending(names[1..]) && forall d :: d in names[1..] ==> StrLeq(names[0], d) && names[0] != d
  {
    hide StrLeq;
  }

  lemma {:induction false} SortedDevicesExact(hops: Devices)
    ensures Ascending(SortedDevices(hops))
    ensures forall d :: d in SortedDevices(hops) <==> exists h :: h in hops && h.1 == d
  {
    if hops != [] {
      SortedDevicesExact(hops[1..]);
      InsertKeeps(SortedDevices(hops[1..]), hops[0].1);
      assert hops == [hops[0]] + hops[1..];
    }
  }

  function Position(names: seq<string>, n: string): (i: nat)
    requires n in names
    ensures i < |names| && names[i] == n
  {
    if names[0] == n then 0 else 1 + Position(names[1..], n)
  }

  /** The bank of each address: the place of its device among the sorted devices. */
  function BanksOf(hops: Devices, names: seq<string>): (r: Banks)
    requires forall h :: h in hops ==> h.1 in names
    ensures |r| == |hops|
    ensures forall i :: 0 <= i < |hops| ==> r[i] == (hops[i].0, Position(names, hops[i].1))
  {
    seq(|hops|, i requires 0 <= i < |hops| => (hops[i].0, Position(names, hops[i].1)))
  }

  lemma DevicesCovered(hops: Devices)
    ensures forall h :: h in hops ==> h.1 in SortedDevices(hops)
  {
    SortedDevicesExact(hops);
  }

  function HopBanks(hops: Devices): Banks {
    DevicesCovered(hops);
    BanksOf(hops, SortedDevices(hops))
  }

  /** Two next hops share a bank exactly when they share a device. */
  lemma SameBankIff(hops: Devices, i: nat, j: nat)
    requires i < |hops| && j < |hops|
    ensures |HopBanks(hops)| == |hops|
    ensures HopBanks(hops)[i].1 == HopBanks(hops)[j].1 <==> hops[i].1 == hops[j].1
  {
    DevicesCovered(hops);
    assert hops[i] in hops && hops[j] in hops;
  }

  // ----- the bucket size -----

  function Count(banks: Banks, b: nat): nat {
    if banks == [] then 0 else (if banks[0].1 == b then 1 else 0) + Count(banks[1..], b)
  }

  /** The bucket size: for each bank with next hops, the least common multiple of 1 to their number. */
  function BucketSize(banks: Banks, n: nat): nat {
    if n == 0 then 0
    else BucketSize(banks, n - 1) + (if Count(banks, n - 1) == 0 then 0 else LcmUpTo(Count(banks, n - 1)))
  }

  method CountBank(banks: Banks, b: nat) returns (n: nat)
    ensures n == Count(banks, b)
  {
    n := 0;
    assert banks[0..] == banks;
    for i := 0 to |banks|
      invariant n + Count(banks[i..], b) == Count(banks, b)
    {
      assert banks[i..][0] == banks[i] && banks[i..][1..] == banks[i+1..];
      if banks[i].1 == b {
        n := n + 1;
      }
    }
  }

  lemma LcmStep(i: nat)
    requires i >= 2
    ensures var r := LcmUpTo(i - 1); Gcd(r, i) > 0 && LcmUpTo(i) == r * i / Gcd(r, i)
  {
    hide Gcd;
    GcdPositive(LcmUpTo(i - 1), i);
  }

  method LcmOfFirst(n: nat) returns (r: nat)
    requires n > 0
    ensures r == LcmUpTo(n)
  {
    hide Gcd, LcmUpTo;
    r := 1;
    LcmOne();
    for i := 2 to n + 1
      invariant r == LcmUpTo(i - 1)
    {
      var g := CalculateGcd(r, i);
      LcmStep(i);
      r := r * i / g;
    }
  }

  lemma LcmOne()
    ensures LcmUpTo(1) == 1
  {
  }

  /** The size of the table for banks numbered from 0, one for each device. */
  method CalculateLcmForEcmp(devices: nat, banks: Banks) returns (size: nat)
    ensures size == BucketSize(banks, devices)
  {
    size := 0;
    for b := 0 to devices
      invariant size == BucketSize(banks, b)
    {
      var n := CountBank(banks, b);
      if n > 0 {
        var lcm := LcmOfFirst(n);
        size := size + lcm;
      }
    }
  }

  // ----- the size by devices -----

  /** How many next hops a device has. */
  function HopsOf(hops: Devices, device: string): nat {
    if hops == [] then 0 else (if hops[0].1 == device then 1 else 0) + HopsOf(hops[1..], device)
  }

  /** The sum over the devices of the least common multiple of 1 to their number of next hops. */
  function SizeByDevice(hops: Devices, devices: seq<string>): nat {
    if devices == [] then 0
    else SizeByDevice(hops, devices[..|devices|-1]) + LcmUpTo(HopsOf(hops, devices[|devices|-1]))
  }

  lemma {:induction false} BankCount(hops: Devices, names: seq<string>, b: nat)
    requires b < |names| && (forall h :: h in hops ==> h.1 in names)
    requires forall i, j :: 0 <= i < j < |names| ==> names[i] != names[j]
    ensures Count(BanksOf(hops, names), b) == HopsOf(hops, names[b])
  {
    if hops != [] {
      assert hops[0] in hops;
      BankCount(hops[1..], names, b);
      assert BanksOf(hops, names)[1..] == BanksOf(hops[1..], names);
      var p := Position(names, hops[0].1);
      assert names[p] == names[b] ==> p == b;
    }
  }

  /** A bank holds the next hops of its device, and of no other. */
  lemma BankHolds(hops: Devices, b: nat)
    requires b < |SortedDevices(hops)|
    ensures Count(HopBanks(hops), b) == HopsOf(hops, SortedDevices(hops)[b]) > 0
  {
    SortedDevicesExact(hops);
    DevicesCovered(hops);
    BankCount(hops, SortedDevices(hops), b);
    assert SortedDevices(hops)[b] in SortedDevices(hops);
    HasHop(hops, SortedDevices(hops)[b]);
  }

  lemma {:induction false} HasHop(hops: Devices, device: string)
    requires exists h :: h in hops && h.1 == device
    ensures HopsOf(hops, device) > 0
  {
    var h :| h in hops && h.1 == device;
    if hops[0].1 != device {
      assert h in hops[1..];
      HasHop(hops[1..], device);
    }
  }

  lemma {:induction false} SizeOfBanks(hops: Devices, n: nat)
    requires n <= |SortedDevices(hops)|
    ensures BucketSize(HopBanks(hops), n) == SizeByDevice(hops, SortedDevices(hops)[..n])
  {
    hide HopBanks, SortedDevices, Count, LcmUpTo;
    if n > 0 {
      var names := SortedDevices(hops);
      SizeOfBanks(hops, n - 1);
      BankHolds(hops, n - 1);
      assert names[..n][..n-1] == names[..n-1];
    }
  }

  /** The bucket size of a next hop group, from its next hops and their devices. */
  method FineGrainedSize(hops: Devices) returns (size: nat)
    ensures size == SizeByDevice(hops, SortedDevices(hops))
  {
    var devices := SortedDevices(hops);
    SizeOfBanks(hops, |devices|);
    assert devices[..|devices|] == devices;
    size := CalculateLcmForEcmp(|devices|, HopBanks(hops));
  }
}
