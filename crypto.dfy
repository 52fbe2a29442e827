/**
 * The keyed byte generator of simple-crypt (crypto.h): the key hash, the two
 * prime tables, and the `Crypto` bank of eight linear-congruential generators
 * with its rotation schedule.
 *
 * The generator is specified twice: once as values (`GenState`, `Next`,
 * `Keystream`), once as the class `Crypto` whose `Gen` updates its array of
 * slots in place and is proved to follow `Next`.
 */
module Crypto {

  /** A character of a C++ `std::string`: one byte, 0..255. */
  type Byte = c: char | c as int < 0x100 witness '\0'

  /** A C++ `std::string`, a sequence of bytes. */
  type ByteString = seq<Byte>

  const TWO_64: int := 0x1_0000_0000_0000_0000

  /** Initial value of the hash accumulator, and the hash of the empty key. */
  const KEY_HASH_INIT: bv64 := 0xfc23ed30be4613ad

  const NUM_GENERATORS: nat := 8

  const PRIME_MUL_TAB: seq<bv16> :=
    [0x80ab, 0x815f, 0x8d41, 0x9161,
     0x9463, 0x9b77, 0xabc1, 0xb567,
     0xc317, 0xd2a3, 0xd50b, 0xe095,
     0xecf5, 0xf67f, 0xfc37, 0xfff1]

  const PRIME_ADD_TAB: seq<bv16> :=
    [0x80d7, 0x85db, 0x90b9, 0x9cbb,
     0xa0fd, 0xa60d, 0xb201, 0xb9f9,
     0xc23f, 0xc95f, 0xd50d, 0xd7bd,
     0xe2ff, 0xea6d, 0xf463, 0xfd2b]

  // ---------------------------------------------------------------------------
  // Key hash
  // ---------------------------------------------------------------------------

  /** The two's complement reading of a byte value `x`, as `int8_t(x)` gives it. */
  function Int8(x: int): (v: int)
    requires 0 <= x < 256
    ensures -128 <= v < 128
    ensures v % 256 == x
  {
    if x < 128 then x else x - 256
  }

  /** The value of a `char` promoted to `int`, with `char` signed (two's complement). */
  function SignedChar(c: Byte): (v: int)
    ensures -128 <= v < 128
    ensures v % 256 == c as int
  {
    Int8(c as int)
  }

  /**
   * `c * 0xcee3 + 0xaea7` as an unsigned 64-bit value: a negative `char`
   * wraps around to the top of the range.
   */
  function MixValue(c: Byte): (v: int)
    ensures 0 <= v < TWO_64
    ensures c as int < 128 ==> v == c as int * 0xcee3 + 0xaea7
    ensures c as int >= 128 ==> v == TWO_64 - (256 - c as int) * 0xcee3 + 0xaea7
  {
    (SignedChar(c) * 0xcee3 + 0xaea7) % TWO_64
  }

  /** The mixed character, converted to the 64-bit hash type. */
  function Mix(c: Byte): bv64
  {
    MixValue(c) as bv64
  }

  /** `(hash << 8) | (hash >> 56)`: the 64-bit rotate left by eight bits. */
  function RotateLeft8(h: bv64): (r: bv64)
    ensures r == h.RotateLeft(8)
  {
    (h << 8) | (h >> 56)
  }

  /** The inverse rotation, used to show that `RotateLeft8` loses no bits. */
  function RotateRight8(h: bv64): bv64
  {
    (h >> 8) | (h << 56)
  }

  /** One round of the fold: XOR in the mixed character, then rotate. */
  function HashStep(h: bv64, c: Byte): bv64
  {
    RotateLeft8(h ^ Mix(c))
  }

  /**
   * The hash of a key, as a fold over its bytes from first to last. The last
   * round can be peeled off again: the hash of a non-empty key, rotated back
   * and with its last character's mix XORed out, is the hash of the rest.
   */
  function KeyHash(key: ByteString): (h: bv64)
    ensures |key| > 0 ==> RotateRight8(h) ^ Mix(key[|key| - 1]) == KeyHash(key[..|key| - 1])
  {
    if |key| == 0 then KEY_HASH_INIT
    else
      var prev, c := KeyHash(key[..|key| - 1]), key[|key| - 1];
      RotateLeft8Invertible(prev ^ Mix(c));
      XorCancel(prev, Mix(c));
      HashStep(prev, c)
  }

  /** hash_key: the accumulator loop. */
  method HashKey(key: ByteString) returns (hash: bv64)
    ensures hash == KeyHash(key)
  {
    hash := KEY_HASH_INIT;
    for i := 0 to |key|
      invariant hash == KeyHash(key[..i])
    {
      KeyHashPrefix(key, i);
      hash := hash ^ Mix(key[i]);
      hash := (hash << 8) | (hash >> 56);
    }
    assert key[..|key|] == key;
  }

  /** The hash of the first `i + 1` bytes is one round past the hash of the first `i`. */
  lemma KeyHashPrefix(key: ByteString, i: nat)
    requires i < |key|
    ensures KeyHash(key[..i + 1]) == (var x := KeyHash(key[..i]) ^ Mix(key[i]); (x << 8) | (x >> 56))
  {
    assert key[..i + 1][..i] == key[..i];
  }

  /** The empty key hashes to the initial constant. */
  lemma KeyHashEmpty()
    ensures KeyHash([]) == 0xfc23ed30be4613ad
  {
  }

  /** Appending one character folds exactly one more step into the hash. */
  lemma KeyHashAppend(key: ByteString, c: Byte)
    ensures KeyHash(key + [c]) == RotateLeft8(KeyHash(key) ^ Mix(c))
  {
    var k := key + [c];
    assert k[..|k| - 1] == key && k[|k| - 1] == c;
    assert KeyHash(k) == HashStep(KeyHash(key), c);
  }

  /** The shift-or rotation is a true rotation: no bit is lost. */
  lemma RotateLeft8Invertible(h: bv64)
    ensures RotateRight8(RotateLeft8(h)) == h
    ensures RotateLeft8(RotateRight8(h)) == h
    ensures RotateLeft8(h) == h.RotateLeft(8)
  {
  }

  /** Undoes one round of the fold, given the character it folded in. */
  function UnhashStep(h: bv64, c: Byte): (prev: bv64)
    ensures HashStep(prev, c) == h
  {
    RotateLeft8Invertible(h);
    RotateRight8(h) ^ Mix(c)
  }

  /**
   * Each round is injective, so the hash of a key determines the hash of
   * every prefix once the remaining characters are known.
   */
  lemma KeyHashPrefixRecoverable(key: ByteString, c: Byte)
    ensures UnhashStep(KeyHash(key + [c]), c) == KeyHash(key)
  {
    var h, m := KeyHash(key), Mix(c);
    KeyHashAppend(key, c);
    RotateLeft8Invertible(h ^ m);
    XorCancel(h, m);
  }

  lemma XorCancel(a: bv64, b: bv64)
    ensures a ^ b ^ b == a
  {
  }

  // ---------------------------------------------------------------------------
  // Generator bank, as values
  // ---------------------------------------------------------------------------

  /** One linear-congruential slot: a 32-bit state and its 16-bit constants. */
  datatype Lgc = Lgc(value: bv32, mul: bv16, add: bv16)

  /** The whole state of a `Crypto` object. */
  datatype GenState = GenState(lgc: seq<Lgc>, current: nat, counter: nat, period: nat)

  /** The invariant every `Crypto` object keeps. */
  predicate ValidState(s: GenState)
  {
    |s.lgc| == NUM_GENERATORS && s.current < NUM_GENERATORS &&
    0x1001 <= s.period <= 0x2000 && s.counter < s.period
  }

  /** The seed: the two 32-bit halves of the key swapped, then one LCG step mod 2^64. */
  function Seed(key: bv64): (s: bv64)
    ensures s == key.RotateLeft(32) * 0x8119 + 0xd7fb
  {
    ((key << 32) | (key >> 32)) * 0x8119 + 0xd7fb
  }

  /** The rotation period derived from the seed. */
  function Period(seed: bv64): (p: nat)
    ensures 0x1001 <= p <= 0x2000
  {
    (((seed * 0xa187 + 0xfccd) & 0xfff) as nat) + 0x1001
  }

  /** Table index `(key >> shift) & 0xf`. */
  function Nibble(key: bv64, shift: nat): (k: nat)
    requires shift <= 60
    ensures k < 16
  {
    ((key >> shift) & 0xf) as nat
  }

  /** The initial value of slot `i`: byte `i` of the seed, `(seed >> 8i) & 0xff`. */
  function SeedByte(seed: bv64, i: nat): (v: bv32)
    requires i < NUM_GENERATORS
    ensures v < 256
  {
    ((seed >> (8 * i)) & 0xff) as bv32
  }

  /** Slot `i` as the constructor initialises it. */
  function InitSlot(key: bv64, i: nat): (g: Lgc)
    requires i < NUM_GENERATORS
    ensures g.mul == PRIME_MUL_TAB[Nibble(key, 8 * i)]
    ensures g.add == PRIME_ADD_TAB[Nibble(key, 8 * i + 4)]
    ensures g.value < 256
  {
    Lgc(SeedByte(Seed(key), i),
        PRIME_MUL_TAB[Nibble(key, 8 * i)],
        PRIME_ADD_TAB[Nibble(key, 8 * i + 4)])
  }

  /** The state right after `Crypto(key)`. */
  function Init(key: bv64): (s: GenState)
    ensures ValidState(s)
    ensures s.current == 0 && s.counter == 0 && s.period == Period(Seed(key))
    ensures forall i :: 0 <= i < NUM_GENERATORS ==> s.lgc[i] == InitSlot(key, i)
    ensures forall i :: 0 <= i < NUM_GENERATORS ==> s.lgc[i].value < 256
  {
    GenState(seq(NUM_GENERATORS, i requires 0 <= i < NUM_GENERATORS => InitSlot(key, i)),
             0, 0, Period(Seed(key)))
  }

  /** `value * mul + add` in 32-bit unsigned arithmetic. */
  function Advance(g: Lgc): (h: Lgc)
    ensures h.mul == g.mul && h.add == g.add
  {
    g.(value := g.value * (g.mul as bv32) + (g.add as bv32))
  }

  /** The low eight bits of a slot value, `value & 0xff`. */
  function LowByte(v: bv32): (b: bv8)
    ensures b as bv32 == v % 0x100
  {
    (v & 0xff) as bv8
  }

  /** The `uint8_t` return conversion of an `int8_t`: reduction modulo 256. */
  function Uint8(v: int): (b: int)
    ensures 0 <= b < 256
  {
    v % 256
  }

  /**
   * `gen()` returns `int8_t(value & 0xff)` from a function returning `uint8_t`:
   * the two casts give back the byte unchanged.
   */
  lemma Int8CastKeepsBits(v: bv32)
    ensures Uint8(Int8(LowByte(v) as int)) == LowByte(v) as int
  {
  }

  /** The slot index after one call: advance by one, by two at the end of a period. */
  function NextCurrent(s: GenState): (n: nat)
    ensures n < NUM_GENERATORS && n != s.current
  {
    if s.counter + 1 >= s.period then (s.current + 2) % NUM_GENERATORS
    else (s.current + 1) % NUM_GENERATORS
  }

  /** `gen()`: the next state and the byte it returns. */
  function Next(s: GenState): (r: (GenState, bv8))
    requires ValidState(s)
    ensures ValidState(r.0)
    ensures r.0.period == s.period
    ensures r.0.lgc == s.lgc[s.current := Advance(s.lgc[s.current])]
    ensures r.1 == LowByte(r.0.lgc[s.current].value)
    ensures s.counter + 1 < s.period ==>
              r.0.counter == s.counter + 1 && r.0.current == (s.current + 1) % NUM_GENERATORS
    ensures s.counter + 1 == s.period ==>
              r.0.counter == 0 && r.0.current == (s.current + 2) % NUM_GENERATORS
  {
    var sel := s.current;
    var g := Advance(s.lgc[sel]);
    var counter := if s.counter + 1 >= s.period then 0 else s.counter + 1;
    (GenState(s.lgc[sel := g], NextCurrent(s), counter, s.period), LowByte(g.value))
  }

  /**
   * `gen()` changes the value of the slot at the old `current` only, and never
   * changes a multiplier or an increment.
   */
  lemma NextChangesOneSlot(s: GenState, i: nat)
    requires ValidState(s) && i < NUM_GENERATORS
    ensures Next(s).0.lgc[i].mul == s.lgc[i].mul && Next(s).0.lgc[i].add == s.lgc[i].add
    ensures i != s.current ==> Next(s).0.lgc[i] == s.lgc[i]
  {
  }

  /** The state after `n` calls of `gen()`. */
  function After(s: GenState, n: nat): (t: GenState)
    requires ValidState(s)
    ensures ValidState(t) && t.period == s.period
    decreases n
  {
    if n == 0 then s else After(Next(s).0, n - 1)
  }

  /** The `n` bytes returned by `n` calls of `gen()`. */
  function Keystream(s: GenState, n: nat): (ks: seq<bv8>)
    requires ValidState(s)
    ensures |ks| == n
    decreases n
  {
    if n == 0 then [] else [Next(s).1] + Keystream(Next(s).0, n - 1)
  }

  /**
   * One more call after `n` calls: `m = n + 1` calls end in the state one
   * `gen()` past the state after `n`. (The longer count is a parameter of its
   * own, which keeps the proof cheap for the solver.)
   */
  lemma {:induction false} AfterSnoc(s: GenState, n: nat, m: nat)
    requires ValidState(s) && m == n + 1
    ensures After(s, m) == Next(After(s, n)).0
    decreases n
  {
    if n > 0 {
      var t := Next(s).0;
      AfterSnoc(t, n - 1, n);
      assert After(s, m) == After(t, n);
      assert After(s, n) == After(t, n - 1);
    }
  }

  /** Generating `m = n + 1` bytes is generating `n`, then the byte of one more call. */
  lemma {:induction false} KeystreamSnoc(s: GenState, n: nat, m: nat)
    requires ValidState(s) && m == n + 1
    ensures Keystream(s, m) == Keystream(s, n) + [Next(After(s, n)).1]
    decreases n
  {
    if n > 0 {
      var t := Next(s).0;
      KeystreamSnoc(t, n - 1, n);
      var x, p, y := Next(s).1, Keystream(t, n - 1), Next(After(t, n - 1)).1;
      assert After(s, n) == After(t, n - 1);
      assert Keystream(s, n) == [x] + p;
      assert Keystream(s, m) == [x] + (p + [y]);
      assert [x] + (p + [y]) == ([x] + p) + [y];
    }
  }

  /** `n = a + b` calls of `gen()` are `a` calls followed by `b` calls. */
  lemma {:induction false} AfterSplit(s: GenState, a: nat, b: nat, n: nat)
    requires ValidState(s) && n == a + b
    ensures After(s, n) == After(After(s, a), b)
    decreases a
  {
    if a > 0 {
      var t := Next(s).0;
      AfterSplit(t, a - 1, b, n - 1);
      assert After(s, n) == After(t, n - 1);
    }
  }

  /**
   * The keystream is continuous: `n = a + b` bytes from a state are the first
   * `a` bytes followed by `b` bytes from where those left off.
   */
  lemma {:induction false} KeystreamSplit(s: GenState, a: nat, b: nat, n: nat)
    requires ValidState(s) && n == a + b
    ensures Keystream(s, n) == Keystream(s, a) + Keystream(After(s, a), b)
    decreases a
  {
    if a > 0 {
      var t := Next(s).0;
      KeystreamSplit(t, a - 1, b, n - 1);
      var x, p, q := Next(s).1, Keystream(t, a - 1), Keystream(After(t, a - 1), b);
      assert After(s, a) == After(t, a - 1);
      assert Keystream(s, a) == [x] + p;
      assert Keystream(s, n) == [x] + (p + q);
      assert [x] + (p + q) == ([x] + p) + q;
    }
  }

  /**
   * Within one period the slot index advances by one per call and the counter
   * counts the calls.
   */
  lemma {:induction false} WithinPeriod(s: GenState, k: nat)
    requires ValidState(s) && s.counter == 0 && k < s.period
    ensures After(s, k).counter == k
    ensures After(s, k).current == (s.current + k) % NUM_GENERATORS
  {
    if k > 0 {
      WithinPeriod(s, k - 1);
      AfterSnoc(s, k - 1, k);
      var t, u := After(s, k - 1), After(s, k);
      assert t.counter + 1 < t.period;
      assert u.current == (t.current + 1) % NUM_GENERATORS;
      StepArithmetic(s.current, k - 1, k, t.current, u.current);
    }
  }

  /** Adding to a residue modulo 8 and reducing again. */
  lemma ModAdd(a: nat, d: nat)
    ensures (a % NUM_GENERATORS + d) % NUM_GENERATORS == (a + d) % NUM_GENERATORS
  {
  }

  /**
   * The rotation schedule: `period` consecutive calls from a fresh counter
   * advance the slot index by `period + 1` (one extra skip) and reset the counter.
   */
  lemma PeriodRotation(s: GenState)
    requires ValidState(s) && s.counter == 0
    ensures After(s, s.period).counter == 0
    ensures After(s, s.period).current == (s.current + s.period + 1) % NUM_GENERATORS
  {
    var k := s.period - 1;
    WithinPeriod(s, k);
    AfterSnoc(s, k, s.period);
    var t := After(s, k);
    var u := After(s, s.period);
    assert t.counter + 1 == t.period;
    assert u.current == (t.current + 2) % NUM_GENERATORS;
    SkipArithmetic(s.current, k, s.period, t.current, u.current);
  }

  /** The slot arithmetic of one call inside a period. */
  lemma StepArithmetic(c: nat, j: nat, k: nat, before: nat, after: nat)
    requires k == j + 1
    requires before == (c + j) % NUM_GENERATORS
    requires after == (before + 1) % NUM_GENERATORS
    ensures after == (c + k) % NUM_GENERATORS
  {
    ModAdd(c + j, 1);
  }

  /** The slot arithmetic of the last call of a period: `k` single steps, then a double one. */
  lemma SkipArithmetic(c: nat, k: nat, p: nat, before: nat, after: nat)
    requires p == k + 1
    requires before == (c + k) % NUM_GENERATORS
    requires after == (before + 2) % NUM_GENERATORS
    ensures after == (c + p + 1) % NUM_GENERATORS
  {
    ModAdd(c + k, 2);
  }

  // ---------------------------------------------------------------------------
  // The class
  // ---------------------------------------------------------------------------

  /** class Crypto: eight slots updated in place, and the rotation schedule. */
  class Crypto {
    var lgc: array<Lgc>
    var current: nat
    var counter: nat
    var period: nat

    ghost predicate Valid()
      reads this, lgc
    {
      lgc.Length == NUM_GENERATORS && ValidState(State())
    }

    /** The abstract value of the object. */
    ghost function State(): GenState
      reads this, lgc
    {
      GenState(lgc[..], current, counter, period)
    }

    /** Crypto(key): derive the seed, fill the eight slots, start the schedule. */
    constructor (key: bv64)
      ensures Valid() && fresh(lgc)
      ensures State() == Init(key)
    {
      var seed := Seed(key);
      var slots := new Lgc[NUM_GENERATORS];
      for i := 0 to NUM_GENERATORS
        invariant forall j :: 0 <= j < i ==> slots[j] == InitSlot(key, j)
      {
        slots[i] := Lgc(SeedByte(seed, i),
                        PRIME_MUL_TAB[Nibble(key, 8 * i)],
                        PRIME_ADD_TAB[Nibble(key, 8 * i + 4)]);
      }
      assert slots[..] == Init(key).lgc;
      lgc := slots;
      current := 0;
      counter := 0;
      period := Period(seed);
    }

    /** gen(): advance the selected slot, move the schedule, return the low byte. */
    method Gen() returns (b: bv8)
      requires Valid()
      modifies this, lgc
      ensures Valid() && lgc == old(lgc)
      ensures (State(), b) == Next(old(State()))
    {
      ghost var s := State();
      var sel := current;
      current := current + 1;
      counter := counter + 1;
      if counter >= period {
        current := current + 1;
        counter := 0;
      }
      current := current % NUM_GENERATORS;
      assert current == NextCurrent(s);
      var g := Advance(lgc[sel]);
      lgc[sel] := g;
      assert lgc[..] == s.lgc[sel := g];
      b := LowByte(g.value);
    }
  }
}
