/**
 `base32Encode` and `base32Decode` of apps/api/src/auth/totp.ts. Both shift into a 32-bit
 accumulator that is never masked, and rely on its lowest bits being the ones still pending.
 */
module Base32 {
  import opened Bits
  import opened Base32Groups
  import opened Base32Text
  import opened Division

  const WIDTH: nat := 32

  /** `(buffer << s) | v` in so many bits, for a value of at most s. */
  function ShiftIn(width: nat, buffer: nat, s: nat, v: nat): nat {
    (buffer * Pow2(s) + v) % Pow2(width)
  }

  /** `buffer >>> s`. */
  function ShiftOut(buffer: nat, s: nat): int {
    buffer / Pow2(s)
  }

  /** The lowest bits of the accumulator are the pending ones, below whatever is left of older ones. */
  ghost predicate Holds(buffer: nat, older: nat, pending: seq<Bit>) {
    buffer == older * Pow2(|pending|) + Val(pending)
  }

  // ── Shifting ───────────────────────────────────────────────────────────────

  lemma {:induction false} PowSum(a: nat, b: nat)
    ensures Pow2(a + b) == Pow2(a) * Pow2(b)
    decreases b
  {
    if b > 0 {
      PowSum(a, b - 1);
      Double(Pow2(a), Pow2(b - 1));
    }
  }

  lemma Shifted(older: nat, p: nat, s: nat, v: nat)
    ensures (older * p + v) * s == older * (p * s) + v * s
  {}

  lemma Reduced(older: nat, low: nat, high: nat, value: nat)
    requires low > 0 && high > 0 && value < low && high * low > 0
    ensures (older * low + value) % (high * low) == older % high * low + value
  {
    var q, r := older / high, older % high;
    assert older == high * q + r;
    Multiple(low, high - 1 - r);
    assert r * low + value < high * low by { BelowProduct(r, value, low, high); }
    assert older * low + value == (high * low) * q + (r * low + value) by { Regroup(high, q, r, low); }
    DivisionIsUnique(older * low + value, high * low, q, r * low + value);
  }

  lemma Regroup(high: nat, q: nat, r: nat, low: nat)
    ensures (high * q + r) * low == (high * low) * q + r * low
  {}

  lemma BelowProduct(r: nat, value: nat, low: nat, high: nat)
    requires r < high && value < low
    ensures r * low + value < high * low
  {
    Multiple(low, high - r);
    assert high * low == r * low + (high - r) * low;
  }

  lemma ShiftInNumbers(buffer: nat, older: nat, p: nat, v: nat, s: nat, m: nat, high: nat, low: nat, value: nat)
    requires buffer == older * p + v && low == p * s && value == v * s + m && value < low && high > 0 && high * low > 0
    ensures (buffer * s + m) % (high * low) == older % high * low + value
  {
    Shifted(older, p, s, v);
    Reduced(older, low, high, value);
  }

  lemma ShiftOutNumbers(buffer: nat, older: nat, f: nat, r: nat, first: nat, rest: nat)
    requires r > 0 && rest < r && buffer == older * (f * r) + (first * r + rest)
    ensures buffer / r == older * f + first && buffer == (older * f + first) * r + rest
  {
    Shifted(older, f, r, first);
    DivisionIsUnique(buffer, r, older * f + first, rest);
  }

  /** More bits shifted in: the oldest fall off the top, and the pending ones are intact. */
  lemma ShiftInHolds(width: nat, buffer: nat, older: nat, pending: seq<Bit>, more: seq<Bit>) returns (kept: nat)
    requires Holds(buffer, older, pending) && |pending| + |more| <= width
    ensures Holds(ShiftIn(width, buffer, |more|, Val(more)), kept, pending + more)
  {
    var n := |pending| + |more|;
    PowSum(width - n, n);
    PowSum(|pending|, |more|);
    ValConcat(pending, more);
    ValBound(pending + more);
    ShiftInNumbers(buffer, older, Pow2(|pending|), Val(pending), Pow2(|more|), Val(more), Pow2(width - n), Pow2(n),
      Val(pending + more));
    kept := older % Pow2(width - n);
  }

  /** The oldest pending bits are what is left above the others. */
  lemma ShiftOutHolds(buffer: nat, older: nat, pending: seq<Bit>, first: seq<Bit>, rest: seq<Bit>)
    requires Holds(buffer, older, pending) && pending == first + rest
    ensures ShiftOut(buffer, |rest|) == older * Pow2(|first|) + Val(first)
    ensures Holds(buffer, older * Pow2(|first|) + Val(first), rest)
  {
    ValConcat(first, rest);
    ValBound(rest);
    PowSum(|first|, |rest|);
    ShiftOutNumbers(buffer, older, Pow2(|first|), Pow2(|rest|), Val(first), Val(rest));
  }

  // ── Encoding ───────────────────────────────────────────────────────────────

  lemma Lowest(x: int, high: nat, low: nat, n: nat)
    requires x == high * n + low && low < n
    ensures x % n == low
  {
    DivisionIsUnique(x, n, high, low);
  }

  lemma Powers(five: nat, eight: nat)
    requires five == 5 && eight == 8
    ensures Pow2(five) == 32 && Pow2(eight) == 256
  {
    assert Pow2(five) == 2 * Pow2(five - 1) && Pow2(five - 1) == 2 * Pow2(five - 2)
           && Pow2(five - 2) == 2 * Pow2(five - 3);
    PowSum(five, eight - five);
    assert Pow2(five - 3) == 4 && Pow2(five - 2) == 8;
  }

  lemma CharsAppend(quints: seq<Quint>, quint: Quint)
    ensures Chars(quints + [quint]) == Chars(quints) + [Char(quint)]
  {}

  /** One group leaves the accumulator for the text. */
  lemma GroupOut(buffer: nat, older: nat, done: seq<Bit>, pending: seq<Bit>) returns (left: nat)
    requires Holds(buffer, older, pending) && |pending| >= 5 && |done| % 5 == 0
    ensures Holds(buffer, left, pending[5..])
    ensures var quint := ShiftOut(buffer, |pending| - 5) % 32;
            Chars(Quints(done + pending[..5])) == Chars(Quints(done)) + [Char(quint)]
  {
    var first, rest := pending[..5], pending[5..];
    assert pending == first + rest;
    ShiftOutHolds(buffer, older, pending, first, rest);
    Powers(5, 8);
    OneQuint(first);
    Lowest(ShiftOut(buffer, |rest|), older, Val(first), 32);
    QuintsConcat(done, first);
    CharsAppend(Quints(done), Val(first));
    left := older * Pow2(5) + Val(first);
  }

  /** The bits written so far and the pending ones are those of the bytes read so far. */
  ghost predicate Written(out: string, done: seq<Bit>, pending: seq<Bit>, all: seq<Bit>) {
    |done| % 5 == 0 && done + pending == all && out == Chars(Quints(done))
  }

  lemma LastGroup(done: seq<Bit>, pending: seq<Bit>, all: seq<Bit>, out: string)
    requires Written(out, done, pending, all) && |pending| < 5
    ensures pending == [] ==> Chars(Quints(Filled(all))) == out
    ensures pending != [] ==>
           Written(Chars(Quints(Filled(all))), done + (pending + Zeros(5 - |pending|)), [], Filled(all))
    ensures pending != [] ==> |pending + Zeros(5 - |pending|)| == 5
  {
    if pending == [] {
      assert all == done && Filled(all) == all;
    } else {
      assert Fill(|all|) == 5 - |pending|;
      assert done + (pending + Zeros(5 - |pending|)) == Filled(all);
    }
  }

  /** A byte is shifted into the accumulator. */
  method TakeByte(buffer: nat, bytes: seq<Byte>, i: nat, ghost older: nat, ghost pending: seq<Bit>)
    returns (after: nat, ghost kept: nat, ghost more: seq<Bit>)
    requires i < |bytes| && Holds(buffer, older, pending) && |pending| < 5
    ensures |more| == 8 && AllBits(bytes[..i + 1]) == AllBits(bytes[..i]) + more
    ensures Holds(after, kept, pending + more)
  {
    AllBitsStep(bytes, i);
    more := BitsOf(bytes[i], 8);
    kept := ShiftInHolds(WIDTH, buffer, older, pending, more);
    after := ShiftIn(WIDTH, buffer, 8, bytes[i]);
  }

  /** Groups leave it while there are five bits. */
  method Drain(buffer: nat, full: nat, text: string, ghost older: nat, ghost before: seq<Bit>, ghost held: seq<Bit>,
      ghost all: seq<Bit>)
    returns (out: string, bits: nat, ghost left: nat, ghost done: seq<Bit>, ghost pending: seq<Bit>)
    requires Written(text, before, held, all) && |held| == full && Holds(buffer, older, held)
    ensures Written(out, done, pending, all) && |pending| == bits < 5 && Holds(buffer, left, pending)
  {
    out, bits, left, done, pending := text, full, older, before, held;
    while bits >= 5
      invariant Written(out, done, pending, all) && |pending| == bits && Holds(buffer, left, pending)
    {
      left := GroupOut(buffer, left, done, pending);
      out := out + [Char(ShiftOut(buffer, bits - 5) % 32)];
      done, pending, bits := done + pending[..5], pending[5..], bits - 5;
    }
  }

  /** The last bits leave with zeros below them. */
  method Finish(buffer: nat, bits: nat, text: string, ghost older: nat, ghost done: seq<Bit>,
      ghost pending: seq<Bit>, ghost all: seq<Bit>)
    returns (out: string)
    requires Written(text, done, pending, all) && |pending| == bits < 5 && Holds(buffer, older, pending)
    ensures out == Chars(Quints(Filled(all)))
  {
    LastGroup(done, pending, all, text);
    out := text;
    if bits > 0 {
      ghost var _ := LastOut(buffer, older, done, pending);
      out := out + [Char(ShiftIn(WIDTH, buffer, 5 - bits, 0) % 32)];
    }
  }

  method Base32Encode(bytes: seq<Byte>) returns (out: string)
    ensures out == Encoded(bytes)
  {
    out := "";
    var buffer, bits: nat := 0, 0;
    ghost var older: nat, done: seq<Bit>, pending: seq<Bit> := 0, [], [];
    for i := 0 to |bytes|
      invariant Written(out, done, pending, AllBits(bytes[..i])) && |pending| == bits < 5
             && Holds(buffer, older, pending)
    {
      ghost var more;
      buffer, older, more := TakeByte(buffer, bytes, i, older, pending);
      TakenIn(out, done, pending, AllBits(bytes[..i]), more);
      out, bits, older, done, pending :=
        Drain(buffer, bits + 8, out, older, done, pending + more, AllBits(bytes[..i + 1]));
    }
    assert bytes[..|bytes|] == bytes;
    out := Finish(buffer, bits, out, older, done, pending, AllBits(bytes));
  }

  lemma TakenIn(out: string, done: seq<Bit>, pending: seq<Bit>, all: seq<Bit>, more: seq<Bit>)
    requires Written(out, done, pending, all)
    ensures Written(out, done, pending + more, all + more)
  {}

  lemma AllBitsStep(bytes: seq<Byte>, i: nat)
    requires i < |bytes|
    ensures AllBits(bytes[..i + 1]) == AllBits(bytes[..i]) + BitsOf(bytes[i], 8)
    ensures Val(BitsOf(bytes[i], 8)) == bytes[i]
  {
    assert bytes[..i + 1] == bytes[..i] + [bytes[i]];
    AllBitsConcat(bytes[..i], [bytes[i]]);
    OneByte(bytes[i]);
  }

  lemma {:induction false} NoughtOfZeros(n: nat)
    ensures Val(Zeros(n)) == 0
  {
    if n > 0 {
      NoughtOfZeros(n - 1);
      assert Zeros(n)[..n - 1] == Zeros(n - 1);
    }
  }

  /** The last group leaves with zeros shifted in below it. */
  lemma LastOut(buffer: nat, older: nat, done: seq<Bit>, pending: seq<Bit>) returns (quint: Quint)
    requires Holds(buffer, older, pending) && 0 < |pending| < 5 && |done| % 5 == 0
    ensures quint == ShiftIn(WIDTH, buffer, 5 - |pending|, 0) % 32
    ensures Chars(Quints(done + (pending + Zeros(5 - |pending|)))) == Chars(Quints(done)) + [Char(quint)]
  {
    var zeros := Zeros(5 - |pending|);
    NoughtOfZeros(5 - |pending|);
    var kept := ShiftInHolds(WIDTH, buffer, older, pending, zeros);
    Powers(5, 8);
    OneQuint(pending + zeros);
    quint := Val(pending + zeros);
    Lowest(ShiftIn(WIDTH, buffer, 5 - |pending|, 0), kept, quint, 32);
    QuintsConcat(done, pending + zeros);
    CharsAppend(Quints(done), quint);
  }
}
