/**
  The string hash that keys the resource cache (`FNV1A_Hash`). Despite its
  name it is not FNV-1a: each byte is weighted by a multiplier that grows by
  a second, itself growing, step. All arithmetic is on 64-bit `size_t`.
 */
module StringHash {
  import opened Words

  /**
    `static_cast<size_t>` of a `char`. Plain `char` is signed on the x86 and
    x64 targets the viewer builds for, so bytes from 0x80 up sign-extend.
    The low byte always survives; only ASCII bytes keep their value.
   */
  function CharToSize(b: Byte): (v: U64)
    ensures v % Two8 == b
    ensures v < 0x80 <==> b < 0x80
    ensures b < 0x80 ==> v == b
    ensures b >= 0x80 ==> v == (b as int - Two8) % Two64
  {
    if b < 0x80 then b else Two64 - Two8 + b
  }

  /** The three loop variables of the hash. */
  datatype HashState = HashState(result: U64, mult: U64, c: U64)

  const InitialState: HashState := HashState(0, 1, 816753)

  /**
    One loop iteration: `result += ch * mult; mult += c; c += (c + 13) >> 1`,
    each modulo 2^64 (the shift acts on the already wrapped `c + 13`).
   */
  function Step(st: HashState, b: Byte): HashState {
    HashState((st.result + CharToSize(b) * st.mult) % Two64,
              (st.mult + st.c) % Two64,
              (st.c + ((st.c + 13) % Two64) / 2) % Two64)
  }

  /** The loop state after the bytes of `s`, consumed first to last. */
  function Run(s: Bytes): HashState
    decreases |s|
  {
    if |s| == 0 then InitialState else Step(Run(s[..|s| - 1]), s[|s| - 1])
  }

  /** `FNV1A_Hash`: the final `result` of the loop, which is the weighted byte sum modulo 2^64. */
  function Hash(s: Bytes): (h: U64)
    ensures h == WeightedSum(s) % Two64
  {
    RunIsWeightedSum(s);
    Run(s).result
  }

  /**
    The hash of the empty string is 0, and that of a one-byte string is the
    byte's `size_t` value, since `mult` starts at 1.
   */
  lemma HashOfShortStrings(s: Bytes)
    ensures |s| == 0 ==> Hash(s) == 0
    ensures |s| == 1 ==> Hash(s) == CharToSize(s[0])
  {
    if |s| == 1 {
      assert s[..0] == [];
      var v := CharToSize(s[0]);
      assert Run(s).result == (0 + v * 1) % Two64;
    }
  }

  /** The multiplier and its step after `n` iterations, whatever the bytes were. */
  function Schedule(n: nat): (mc: (U64, U64))
    decreases n
  {
    if n == 0 then (1, 816753)
    else
      var prev := Schedule(n - 1);
      ((prev.0 + prev.1) % Two64, (prev.1 + ((prev.1 + 13) % Two64) / 2) % Two64)
  }

  /** The weight of byte `i`: the multiplier in force at iteration `i`. */
  function Weight(i: nat): U64 {
    Schedule(i).0
  }

  /** The loop's `mult` and `c` depend on the length of the string only. */
  lemma {:induction false} RunFollowsSchedule(s: Bytes)
    ensures Run(s).mult == Schedule(|s|).0 && Run(s).c == Schedule(|s|).1
    decreases |s|
  {
    if |s| > 0 {
      RunFollowsSchedule(s[..|s| - 1]);
    }
  }

  /**
    The recurrence of the hash: appending a byte adds that byte's value
    times the multiplier for its position, modulo 2^64.
   */
  lemma HashAppend(s: Bytes, b: Byte)
    ensures Hash(s + [b]) == (Hash(s) + CharToSize(b) * Weight(|s|)) % Two64
  {
    RunAppend(s, b);
  }

  /** The recurrence on the loop's `result`. */
  lemma RunAppend(s: Bytes, b: Byte)
    ensures Run(s + [b]).result == (Run(s).result + CharToSize(b) * Weight(|s|)) % Two64
  {
    assert (s + [b])[..|s|] == s;
    RunFollowsSchedule(s);
  }

  /** A reference definition: the sum of every byte's value times its weight, unreduced. */
  function WeightedSum(s: Bytes): int
    decreases |s|
  {
    if |s| == 0 then 0 else WeightedSum(s[..|s| - 1]) + CharToSize(s[|s| - 1]) * Weight(|s| - 1)
  }

  /** The loop's `result` is the weighted byte sum reduced modulo 2^64. */
  lemma {:induction false} RunIsWeightedSum(s: Bytes)
    ensures Run(s).result == WeightedSum(s) % Two64
    decreases |s|
  {
    if |s| > 0 {
      var init := s[..|s| - 1];
      var b := s[|s| - 1];
      assert init + [b] == s;
      RunIsWeightedSum(init);
      RunAppend(init, b);
      ModAddCongruent(WeightedSum(init), CharToSize(b) * Weight(|init|));
    }
  }

  lemma ModAddCongruent(x: int, y: int)
    ensures (x % Two64 + y) % Two64 == (x + y) % Two64
  {
  }

  /** The hash loop of the source, iteration by iteration. */
  method ComputeHash(s: Bytes) returns (h: U64)
    ensures h == Hash(s)
    ensures h == WeightedSum(s) % Two64
  {
    var result: U64 := 0;
    var mult: U64 := 1;
    var c: U64 := 816753;
    var i := 0;
    while i < |s|
      invariant 0 <= i <= |s|
      invariant Run(s[..i]) == HashState(result, mult, c)
    {
      assert s[..i + 1][..i] == s[..i];
      result := (result + CharToSize(s[i]) * mult) % Two64;
      mult := (mult + c) % Two64;
      c := (c + ((c + 13) % Two64) / 2) % Two64;
      i := i + 1;
    }
    assert s[..i] == s;
    h := result;
  }
}
