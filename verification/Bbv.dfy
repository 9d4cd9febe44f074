/** Basic-block vectors: a random projection that is generated on the fly with wrapping arithmetic. */
module Bbv {

  const TWO_16: nat := 0x1_0000
  const TWO_48: nat := 0x1_0000_0000_0000
  const TWO_64: nat := 0x1_0000_0000_0000_0000
  const RNG_A: nat := 0x5_DEEC_E66D
  const RNG_C: nat := 0xB
  const NUM_BBV: nat := 16

  type Word = x: nat | x < TWO_64

  // ---------------------------------------------------------------- the generator as coded: 64-bit words

  /** The new state; masking with RNG_M keeps the low 48 bits. */
  function RngStep(state: Word): (r: Word)
  {
    ((RNG_A * state) % TWO_64 + RNG_C) % TWO_64 % TWO_48
  }

  function RngSeed(seed: Word): (r: Word)
  {
    ((seed * TWO_16) % TWO_64 + 0x330E) % TWO_64
  }

  /** The low 16 bits of an output, which is the state without its low 16 bits. */
  function LowOutput(state: Word): (w: nat)
    ensures w < TWO_16
  {
    state / TWO_16 % TWO_16
  }

  function Words(state: Word, n: nat): (r: Word)
  {
    if n == 0 then state else RngStep(Words(state, n - 1))
  }

  // ---------------------------------------------------------------- the generator as meant: exact numbers

  /** State number n of the linear congruential generator modulo 2^48. */
  function Lcg(seed: nat, n: nat): (r: nat)
  {
    if n == 0 then (seed * TWO_16 + 0x330E) % TWO_48 else (RNG_A * Lcg(seed, n - 1) + RNG_C) % TWO_48
  }

  /** The weight of an address in dimension i: output number i / 4 + 1 of the generator seeded with address + i % 4. */
  function Weight(address: nat, i: nat): (w: nat)
    ensures w < TWO_16
  {
    Lcg(address + i % 4, i / 4 + 1) / TWO_16 % TWO_16
  }

  // ---------------------------------------------------------------- wrapping is harmless

  /** Reducing modulo a multiple first changes nothing. */
  lemma ModOfMod(x: nat)
    ensures x % TWO_64 % TWO_48 == x % TWO_48
  {
    var q, r := x / TWO_64, x % TWO_64;
    var p := r / TWO_48;
    assert x == (q * TWO_16 + p) * TWO_48 + r % TWO_48;
    ModIs(x, q * TWO_16 + p, r % TWO_48);
  }

  lemma ModIs(x: nat, q: nat, r: nat)
    requires x == q * TWO_48 + r && r < TWO_48
    ensures x % TWO_48 == r
  {
  }

  lemma AddMod(x: nat, y: nat)
    ensures (x % TWO_64 + y) % TWO_64 == (x + y) % TWO_64
  {
    var q := x / TWO_64;
    assert x + y == q * TWO_64 + (x % TWO_64 + y);
    Mod64Is(x + y, q, x % TWO_64 + y);
  }

  lemma Mod64Is(x: nat, q: nat, r: nat)
    requires x == q * TWO_64 + r
    ensures x % TWO_64 == r % TWO_64
  {
    var p := r / TWO_64;
    assert x == (q + p) * TWO_64 + r % TWO_64;
  }

  /** The step depends on the low 48 bits of the state only. */
  lemma StepLow(x: nat)
    ensures (RNG_A * x + RNG_C) % TWO_48 == (RNG_A * (x % TWO_48) + RNG_C) % TWO_48
  {
    var q, r := x / TWO_48, x % TWO_48;
    var y := RNG_A * r + RNG_C;
    assert RNG_A * x + RNG_C == (RNG_A * q + y / TWO_48) * TWO_48 + y % TWO_48;
    ModIs(RNG_A * x + RNG_C, RNG_A * q + y / TWO_48, y % TWO_48);
  }

  /** The wrapping step is the exact recurrence modulo 2^48. */
  lemma StepIs(state: Word)
    ensures RngStep(state) == (RNG_A * (state % TWO_48) + RNG_C) % TWO_48
  {
    AddMod(RNG_A * state, RNG_C);
    ModOfMod(RNG_A * state + RNG_C);
    StepLow(state);
  }

  lemma SeedIs(address: Word, j: nat)
    ensures RngSeed((address + j) % TWO_64) % TWO_48 == Lcg(address + j, 0)
  {
    var a := address + j;
    AddMod((a % TWO_64) * TWO_16, 0x330E);
    ModOfMod((a % TWO_64) * TWO_16 + 0x330E);
    var q := a / TWO_64;
    var y := (a % TWO_64) * TWO_16 + 0x330E;
    assert a * TWO_16 + 0x330E == (q * TWO_16 * TWO_16 + y / TWO_48) * TWO_48 + y % TWO_48;
    ModIs(a * TWO_16 + 0x330E, q * TWO_16 * TWO_16 + y / TWO_48, y % TWO_48);
  }

  lemma {:induction false} WordsAreLcg(address: Word, j: nat, n: nat)
    ensures Words(RngSeed((address + j) % TWO_64), n) % TWO_48 == Lcg(address + j, n)
    ensures n > 0 ==> Words(RngSeed((address + j) % TWO_64), n) == Lcg(address + j, n)
  {
    hide RngStep, RngSeed;
    if n == 0 {
      SeedIs(address, j);
    } else {
      WordsAreLcg(address, j, n - 1);
      StepIs(Words(RngSeed((address + j) % TWO_64), n - 1));
    }
  }

  // ---------------------------------------------------------------- the generator in closed form

  function Power(b: nat, n: nat): (p: nat)
  {
    if n == 0 then 1 else b * Power(b, n - 1)
  }

  /** 1 + b + b^2 + ... with n terms */
  function Geometric(b: nat, n: nat): (g: nat)
  {
    if n == 0 then 0 else b * Geometric(b, n - 1) + 1
  }

  /** Output number n of the generator of drand48, from its seed alone. */
  lemma {:induction false} ClosedForm(seed: nat, n: nat)
    ensures Lcg(seed, n) == (Power(25214903917, n) * (seed * 65536 + 13070) + 11 * Geometric(25214903917, n)) % 281474976710656
  {
    var s := seed * 65536 + 13070;
    if n > 0 {
      ClosedForm(seed, n - 1);
      var p, g := Power(25214903917, n - 1), Geometric(25214903917, n - 1);
      StepLow(p * s + 11 * g);
      Regroup(25214903917, p, s, g);
    }
  }

  lemma Regroup(a: nat, p: nat, s: nat, g: nat)
    ensures a * (p * s + 11 * g) + 11 == (a * p) * s + 11 * (a * g + 1)
  {
    assert a * (p * s) == (a * p) * s;
    assert a * (11 * g) == 11 * (a * g);
  }

  /** The weight of an address in a dimension is 16 bits of such an output. */
  lemma WeightIs(address: nat, i: nat)
    ensures var n, seed := i / 4 + 1, address + i % 4;
            Weight(address, i) ==
            (Power(25214903917, n) * (seed * 65536 + 13070) + 11 * Geometric(25214903917, n)) % 281474976710656 / 65536 % 65536
  {
    hide Lcg, Power, Geometric;
    ClosedForm(address + i % 4, i / 4 + 1);
  }

  lemma FirstWeights()
    ensures Weight(0, 0) == 25308 && Weight(0, 1) == 18761 && Weight(0, 4) == 37761
  {
    assert Lcg(0, 0) == 13070 && Lcg(1, 0) == 78606;
    assert Lcg(0, 1) == 48083817484545;
    assert Lcg(1, 1) == 11717900325121;
    assert Lcg(0, 2) == 211078642492280;
  }

  // ---------------------------------------------------------------- counting

  /** `count` executions of the block at `address`. */
  datatype Call = Call(address: Word, count: Word)

  /** A dimension after one more call. */
  function Bumped(v: Word, c: Call, i: nat): (r: Word)
  {
    (v + Weight(c.address, i) * c.count) % TWO_64
  }

  class Counter {
    var instrs: Word
    const counts: array<Word>

    ghost predicate Valid()
    {
      counts.Length == NUM_BBV
    }

    constructor ()
      ensures Valid() && fresh(counts) && instrs == 0 && forall i :: 0 <= i < NUM_BBV ==> counts[i] == 0
    {
      instrs := 0;
      counts := new Word[NUM_BBV](_ => 0);
    }

    /** One line of the unrolled loop: the next output is weighed in. */
    method Bump(k: nat, state: Word, c: Call) returns (state': Word)
      requires Valid() && k < NUM_BBV
      requires LowOutput(RngStep(state)) == Weight(c.address, k)
      modifies counts
      ensures state' == RngStep(state)
      ensures counts[k] == Bumped(old(counts[k]), c, k)
      ensures forall i :: 0 <= i < NUM_BBV && i != k ==> counts[i] == old(counts[i])
    {
      hide Weight, RngStep, LowOutput;
      state' := RngStep(state);
      var w := LowOutput(state');
      AddMod(w * c.count, counts[k]);
      counts[k] := (counts[k] + (w * c.count) % TWO_64) % TWO_64;
    }

    method Count(c: Call)
      requires Valid()
      modifies this, counts
      ensures instrs == (old(instrs) + c.count) % TWO_64
      ensures forall i :: 0 <= i < NUM_BBV ==> counts[i] == Bumped(old(counts[i]), c, i)
    {
      hide Weight, RngSeed, RngStep, LowOutput, Bumped;
      instrs := (instrs + c.count) % TWO_64;
      var s0 := RngSeed(c.address);
      var s1 := RngSeed((c.address + 1) % TWO_64);
      var s2 := RngSeed((c.address + 2) % TWO_64);
      var s3 := RngSeed((c.address + 3) % TWO_64);
      var i := 0;
      while i < NUM_BBV
        invariant 0 <= i <= NUM_BBV && i % 4 == 0
        invariant s0 == StreamAt(c.address, 0, i / 4) && s1 == StreamAt(c.address, 1, i / 4)
        invariant s2 == StreamAt(c.address, 2, i / 4) && s3 == StreamAt(c.address, 3, i / 4)
        invariant forall k :: 0 <= k < i ==> counts[k] == Bumped(old(counts[k]), c, k)
        invariant forall k :: i <= k < NUM_BBV ==> counts[k] == old(counts[k])
        invariant instrs == (old(instrs) + c.count) % TWO_64
      {
        OutputIs(c.address, i);
        OutputIs(c.address, i + 1);
        OutputIs(c.address, i + 2);
        OutputIs(c.address, i + 3);
        s0 := Bump(i, s0, c);
        s1 := Bump(i + 1, s1, c);
        s2 := Bump(i + 2, s2, c);
        s3 := Bump(i + 3, s3, c);
        i := i + 4;
      }
    }

    method Clear()
      requires Valid()
      modifies this, counts
      ensures instrs == 0 && forall i :: 0 <= i < NUM_BBV ==> counts[i] == 0
    {
      instrs := 0;
      for i := 0 to NUM_BBV
        invariant instrs == 0 && forall k :: 0 <= k < i ==> counts[k] == 0
      {
        counts[i] := 0;
      }
    }
  }

  /** State number n of one of the four streams. */
  function StreamAt(address: Word, j: nat, n: nat): (r: Word)
    ensures n == 0 ==> r == RngSeed((address + j) % TWO_64)
    ensures n > 0 ==> r == RngStep(StreamAt(address, j, n - 1))
    decreases n
  {
    Words(RngSeed((address + j) % TWO_64), n)
  }

  /** Line k of the loop adds the weight of dimension k. */
  lemma OutputIs(address: Word, k: nat)
    ensures LowOutput(RngStep(StreamAt(address, k % 4, k / 4))) == Weight(address, k)
  {
    hide RngStep, RngSeed;
    WordsAreLcg(address, k % 4, k / 4 + 1);
  }

  // ---------------------------------------------------------------- runs

  /** A dimension after a run of calls. */
  function Run(calls: seq<Call>, i: nat): (r: Word)
  {
    if calls == [] then 0 else Bumped(Run(calls[..|calls| - 1], i), calls[|calls| - 1], i)
  }

  /** The exact projection of all calls on dimension i. */
  function Projection(calls: seq<Call>, i: nat): (r: nat)
  {
    if calls == [] then 0
    else Projection(calls[..|calls| - 1], i) + Weight(calls[|calls| - 1].address, i) * calls[|calls| - 1].count
  }

  /** A dimension is the exact projection modulo 2^64. */
  lemma {:induction false} RunIs(calls: seq<Call>, i: nat)
    ensures Run(calls, i) == Projection(calls, i) % TWO_64
  {
    hide Weight;
    if calls != [] {
      var n := |calls| - 1;
      RunIs(calls[..n], i);
      AddMod(Projection(calls[..n], i), Weight(calls[n].address, i) * calls[n].count);
    }
  }

  lemma ProjectionSnoc(calls: seq<Call>, c: Call, i: nat)
    ensures Projection(calls + [c], i) == Projection(calls, i) + Weight(c.address, i) * c.count
  {
    hide Weight;
    assert (calls + [c])[..|calls|] == calls;
  }

  lemma {:induction false} ProjectionConcat(a: seq<Call>, b: seq<Call>, i: nat)
    ensures Projection(a + b, i) == Projection(a, i) + Projection(b, i)
    decreases b
  {
    hide Weight;
    if b == [] {
      assert a + b == a;
    } else {
      var n := |b| - 1;
      assert a + b == a + b[..n] + [b[n]];
      ProjectionSnoc(a + b[..n], b[n], i);
      ProjectionConcat(a, b[..n], i);
    }
  }

  lemma ProjectionMove(a: seq<Call>, c: Call, b: seq<Call>, i: nat)
    ensures Projection(a + [c] + b, i) == Projection(a + b, i) + Weight(c.address, i) * c.count
  {
    hide Projection, Weight;
    ProjectionConcat(a + [c], b, i);
    ProjectionSnoc(a, c, i);
    ProjectionConcat(a, b, i);
  }

  lemma {:induction false} SameProjection(a: seq<Call>, b: seq<Call>, i: nat)
    requires multiset(a) == multiset(b)
    ensures Projection(a, i) == Projection(b, i)
    decreases a
  {
    if a == [] {
      assert |b| == |multiset(b)| == |multiset(a)| == 0;
    } else {
      hide Projection, Weight;
      var n := |a| - 1;
      var c := a[n];
      assert a == a[..n] + [c];
      assert c in multiset(b);
      var j :| 0 <= j < |b| && b[j] == c;
      assert b == b[..j] + [c] + b[j + 1..];
      assert multiset(a) == multiset(a[..n]) + multiset{c};
      assert multiset(b) == multiset(b[..j] + b[j + 1..]) + multiset{c};
      assert multiset(a[..n]) == multiset(a) - multiset{c} == multiset(b[..j] + b[j + 1..]);
      SameProjection(a[..n], b[..j] + b[j + 1..], i);
      ProjectionMove(b[..j], c, b[j + 1..], i);
      ProjectionSnoc(a[..n], c, i);
    }
  }

  /** The order of calls does not matter. */
  lemma OrderIsIrrelevant(a: seq<Call>, b: seq<Call>, i: nat)
    requires multiset(a) == multiset(b)
    ensures Run(a, i) == Run(b, i)
  {
    RunIs(a, i);
    RunIs(b, i);
    SameProjection(a, b, i);
  }

  /** Nor does it matter whether a count comes in one call or, even wrapping around, in two. */
  lemma SplitIsIrrelevant(before: seq<Call>, after: seq<Call>, address: Word, m: Word, n: Word, i: nat)
    ensures Run(before + [Call(address, m), Call(address, n)] + after, i) == Run(before + [Call(address, (m + n) % TWO_64)] + after, i)
  {
    hide Weight, Run, Projection;
    var w := Weight(address, i);
    var two, one := [Call(address, m), Call(address, n)], Call(address, (m + n) % TWO_64);
    RunIs(before + two + after, i);
    RunIs(before + [one] + after, i);
    ProjectionConcat(before + two, after, i);
    ProjectionConcat(before, two, i);
    ProjectionConcat(before + [one], after, i);
    ProjectionSnoc(before, one, i);
    assert two == [] + [Call(address, m)] + [Call(address, n)];
    ProjectionSnoc([], Call(address, m), i);
    ProjectionSnoc([] + [Call(address, m)], Call(address, n), i);
    assert Projection([], i) == 0 by { NoProjection(i); }
    SplitCount(w, m, n, Projection(before, i) + Projection(after, i));
  }

  lemma NoProjection(i: nat)
    ensures Projection([], i) == 0
  {
  }

  lemma SplitCount(w: nat, m: nat, n: nat, rest: nat)
    ensures (rest + (w * m + w * n)) % TWO_64 == (rest + w * ((m + n) % TWO_64)) % TWO_64
  {
    var q := (m + n) / TWO_64;
    assert w * m + w * n == w * (m + n);
    assert w * (m + n) == (w * q) * TWO_64 + w * ((m + n) % TWO_64);
    Mod64Is(rest + (w * m + w * n), w * q, rest + w * ((m + n) % TWO_64));
  }
}
