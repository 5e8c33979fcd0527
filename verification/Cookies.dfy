/**
 Context cookies of .NET semiring providers (SemiringProviders.cs): a token carries the cookie
 of the context that issued it, and a context accepts only its own cookie.

 The counter is a static field of a generic class, so every value type numbers its own contexts.
 The cookie of the n-th context is n times an odd constant modulo 2^64, with the lowest bit set.
 Setting the bit merges neighbours, so not even the cookies of one type are all distinct;
 `CookiesEqualIff` says exactly which numbers share one, and `ForeignTokenIff` what a context
 makes of the tokens of another one, of any type.
 */
module Cookies {
  import opened Interop

  const MULTIPLIER: int := 0x9e37_79b9_7f4a_7c15

  /** The inverse of the multiplier modulo 2^64, and its negation. */
  const INVERSE: int := 0xf1de_83e1_9937_733d
  const DISTANCE: int := 0x0e21_7c1e_66c8_8cc3

  /** `| 1`. */
  function SetLowBit(x: nat): nat {
    if x % 2 == 0 then x + 1 else x
  }

  /** The cookie of the context created as number `n`, counting from one. */
  function Cookie(n: nat): nat {
    SetLowBit((n * MULTIPLIER) % TWO_64)
  }

  /** The creation counter of one value type is a signed 64-bit field; its bits are those of the count. */
  class Counter {
    var nextCookie: int
    ghost var created: nat

    ghost predicate Valid()
      reads this
    {
      -TWO_64 / 2 <= nextCookie < TWO_64 / 2 && nextCookie % TWO_64 == created % TWO_64
    }

    constructor ()
      ensures Valid() && created == 0
    {
      nextCookie, created := 0, 0;
    }

    /** `Interlocked.Increment` wraps; the cast to `ulong` reinterprets the bits. */
    method Create() returns (cookie: nat)
      requires Valid()
      modifies this
      ensures Valid() && created == old(created) + 1 && cookie == Cookie(created)
    {
      nextCookie := if nextCookie == TWO_64 / 2 - 1 then -TWO_64 / 2 else nextCookie + 1;
      created := created + 1;
      var bits := if nextCookie < 0 then nextCookie + TWO_64 else nextCookie;
      SameProduct(bits, created);
      cookie := SetLowBit((bits * MULTIPLIER) % TWO_64);
    }
  }

  lemma SameProduct(a: nat, b: nat)
    requires a % TWO_64 == b % TWO_64
    ensures (a * MULTIPLIER) % TWO_64 == (b * MULTIPLIER) % TWO_64
  {
    var k := a / TWO_64 - b / TWO_64;
    assert a == b + k * TWO_64;
    AddMultiple(b * MULTIPLIER, k * MULTIPLIER);
  }

  lemma AddMultiple(x: int, k: int)
    ensures (x + k * TWO_64) % TWO_64 == x % TWO_64
  {
    Remainder(x + k * TWO_64, x / TWO_64 + k, x % TWO_64);
  }

  lemma Remainder(x: int, q: int, r: int)
    requires x == q * TWO_64 + r && 0 <= r < TWO_64
    ensures x % TWO_64 == r
  {
  }

  lemma InverseConstants()
    ensures (MULTIPLIER * INVERSE) % TWO_64 == 1 && DISTANCE == TWO_64 - INVERSE
    ensures DISTANCE > 0x0800_0000_0000_0000
  {
  }

  /** A distance whose product is `r` modulo 2^64 is `r` times the inverse modulo 2^64. */
  lemma Divide(d: int, q: int, r: int) returns (k: int)
    requires d * MULTIPLIER == q * TWO_64 + r
    ensures d == k * TWO_64 + r * INVERSE
  {
    var c := (MULTIPLIER * INVERSE) / TWO_64;
    assert MULTIPLIER * INVERSE == c * TWO_64 + 1;
    k := q * INVERSE - c * d;
  }

  /** Multiplying back: the only distances whose products differ by one. */
  lemma DistanceOf(d: int, q: int, r: int)
    requires 0 < d < TWO_64 && d * MULTIPLIER == q * TWO_64 + r
    ensures r != 0 && (r == 1 ==> d == INVERSE) && (r == -1 ==> d == DISTANCE)
  {
    if r == 0 {
      var k := Divide(d, q, 0);
    } else if r == 1 {
      var k := Divide(d, q, 1);
    } else if r == -1 {
      var k := Divide(d, q, -1);
    }
  }

  /** And those two distances do differ by one, modulo 2^64. */
  lemma DifferenceAt(d: int, q: int, r: int)
    requires -TWO_64 < r < TWO_64 && d * MULTIPLIER == q * TWO_64 + r
    ensures d == INVERSE ==> r == 1 || r == 1 - TWO_64
    ensures d == DISTANCE ==> r == -1 || r == TWO_64 - 1
  {
  }

  lemma AddEven(a: int, k: int)
    ensures (a + 2 * k) % 2 == a % 2
  {
  }

  /** The constant is odd and the modulus even, so a product has the parity of the number. */
  lemma OddTimes(a: int, q: int, x: int) returns (k: int)
    requires a * MULTIPLIER == q * TWO_64 + x
    ensures x == a + 2 * k
  {
    k := a * 0x4f1b_bcdc_bfa5_3e0a - q * 0x8000_0000_0000_0000;
  }

  lemma SameParity(a: nat, q: nat, x: nat)
    requires a * MULTIPLIER == q * TWO_64 + x
    ensures x % 2 == a % 2
  {
    var k := OddTimes(a, q, x);
    AddEven(a, k);
  }

  /** Setting the low bit merges an even number with its successor, and nothing else. */
  lemma Merged(x: nat, y: nat)
    ensures SetLowBit(x) == SetLowBit(y) <==> x == y || (x % 2 == 0 && y == x + 1) || (x % 2 == 1 && y == x - 1)
  {
  }

  predicate Collide(a: nat, b: nat) {
    (a % 2 == 0 && b - a == INVERSE) || (a % 2 == 1 && b - a == DISTANCE)
  }

  /** Two contexts less than 2^64 creations apart share a cookie exactly at these two distances. */
  lemma CookiesCollideIff(a: nat, b: nat)
    requires 0 < b - a < TWO_64
    ensures Cookie(a) == Cookie(b) <==> Collide(a, b)
  {
    var x, y := (a * MULTIPLIER) % TWO_64, (b * MULTIPLIER) % TWO_64;
    var p, q := (a * MULTIPLIER) / TWO_64, (b * MULTIPLIER) / TWO_64;
    assert (b - a) * MULTIPLIER == (q - p) * TWO_64 + (y - x);
    DistanceOf(b - a, q - p, y - x);
    DifferenceAt(b - a, q - p, y - x);
    SameParity(a, p, x);
    Merged(x, y);
  }

  /** The same number, or a colliding one. */
  predicate Alike(a: nat, b: nat) {
    a == b || Collide(a, b) || Collide(b, a)
  }

  lemma CookieOfRemainder(n: nat)
    ensures n % TWO_64 >= 0 && Cookie(n) == Cookie(n % TWO_64)
  {
    Remainder(n % TWO_64, 0, n % TWO_64);
    SameProduct(n, n % TWO_64);
  }

  /** For any two creation numbers: the counter has 64 bits, so only remainders matter. */
  lemma CookiesEqualIff(a: nat, b: nat)
    ensures Cookie(a) == Cookie(b) <==> Alike(a % TWO_64, b % TWO_64)
  {
    CookieOfRemainder(a);
    CookieOfRemainder(b);
    var x, y := a % TWO_64, b % TWO_64;
    InverseConstants();
    if x < y {
      CookiesCollideIff(x, y);
    } else if y < x {
      CookiesCollideIff(y, x);
    }
  }

  /** In particular none are equal that are fewer than 2^59 creations apart. */
  lemma NearCookiesDiffer(a: nat, b: nat)
    requires a != b && -0x0800_0000_0000_0000 < b - a < 0x0800_0000_0000_0000
    ensures Cookie(a) != Cookie(b)
  {
    InverseConstants();
    if a < b {
      CookiesCollideIff(a, b);
    } else {
      CookiesCollideIff(b, a);
    }
  }

  // ---------------------------------------------------------------- tokens

  /** A value type: values of at most eight bytes without references are stored in the token. */
  datatype ValueType = Inline(id: nat, size: nat) | Referenced(id: nat)

  /** A context is the `number`-th of its value type. */
  datatype Context = Context(valueType: ValueType, number: nat)

  /** What a `GCHandle` refers to: a token object, with the context that owns it. */
  datatype Target = Target(owner: Context, value: nat)

  type Handles = map<nat, Target>

  function Bytes(size: nat): (n: nat)
    ensures n > 0
  {
    if size == 0 then 1 else 256 * Bytes(size - 1)
  }

  /** The value an inline context reads: the first bytes of a little-endian word. */
  function LowBytes(word: nat, size: nat): nat {
    word % Bytes(size)
  }

  /** `EncodeProviderValue`, for a new handle. */
  function Encode(c: Context, value: nat, handle: nat, handles: Handles): (Token, Handles) {
    if c.valueType.Inline? then (Token(value, Cookie(c.number)), handles)
    else (Token(handle, Cookie(c.number)), handles[handle := Target(c, value)])
  }

  /** `IsValid` and `TryDecode`. */
  function TryDecode(c: Context, token: Token, handles: Handles): Option<nat> {
    if token.word1 != Cookie(c.number) then None
    else if c.valueType.Inline? then Some(LowBytes(token.word0, c.valueType.size))
    else if token.word0 == 0 || token.word0 !in handles || handles[token.word0].owner != c then None
    else Some(handles[token.word0].value)
  }

  lemma SmallRemainder(x: nat, m: nat)
    requires x < m
    ensures x % m == x
  {
  }

  /** A context decodes what it encoded. */
  lemma OwnTokenDecodes(c: Context, value: nat, handle: nat, handles: Handles)
    requires handle != 0 && (c.valueType.Inline? ==> value < Bytes(c.valueType.size))
    ensures var e := Encode(c, value, handle, handles); TryDecode(c, e.0, e.1) == Some(value)
  {
    if c.valueType.Inline? {
      SmallRemainder(value, Bytes(c.valueType.size));
    }
  }

  /** The handle an inline value happens to spell belongs to context `c`. */
  predicate NamesHandleOf(c: Context, value: nat, handles: Handles) {
    value != 0 && value in handles && handles[value].owner == c
  }

  /**
   What a context makes of a token of any other context, of the same value type or not: it
   accepts it exactly if their cookies are equal and either it stores values inline itself, or
   the other does and the value spells a handle of this context.
   */
  lemma ForeignTokenIff(a: Context, b: Context, value: nat, handle: nat, handles: Handles)
    requires a != b && handle !in handles
    ensures var e := Encode(a, value, handle, handles);
            && (TryDecode(b, e.0, e.1).Some? <==>
                  && Alike(a.number % TWO_64, b.number % TWO_64)
                  && (b.valueType.Inline? || (a.valueType.Inline? && NamesHandleOf(b, value, handles))))
            && (TryDecode(b, e.0, e.1).Some? && b.valueType.Inline? ==>
                  TryDecode(b, e.0, e.1).value
                  == LowBytes(if a.valueType.Inline? then value else handle, b.valueType.size))
  {
    CookiesEqualIff(a.number, b.number);
  }

  /** A context of the same value type created fewer than 2^59 creations apart always rejects it. */
  lemma ForeignTokenRejected(a: Context, b: Context, value: nat, handle: nat, handles: Handles)
    requires a != b && a.valueType == b.valueType && handle !in handles
    requires -0x0800_0000_0000_0000 < b.number - a.number < 0x0800_0000_0000_0000
    ensures var e := Encode(a, value, handle, handles); TryDecode(b, e.0, e.1) == None
  {
    NearCookiesDiffer(a.number, b.number);
  }

  /** But contexts of different value types with the same number do share a cookie. */
  lemma TypesShareCookies(a: Context, b: Context, value: nat, handle: nat, handles: Handles)
    requires a.valueType != b.valueType && a.number == b.number && b.valueType.Inline? && handle !in handles
    ensures var e := Encode(a, value, handle, handles);
            TryDecode(b, e.0, e.1) == Some(LowBytes(e.0.word0, b.valueType.size))
  {
    ForeignTokenIff(a, b, value, handle, handles);
  }

  /** The first context of a four-byte type and the first of an eight-byte type take each other's tokens. */
  lemma FirstContextsCollide()
    ensures var a, b := Context(Inline(0, 4), 1), Context(Inline(1, 8), 1);
            && TryDecode(b, Encode(a, 7, 1, map[]).0, map[]) == Some(7)
            && TryDecode(a, Encode(b, 0x1_0000_0007, 1, map[]).0, map[]) == Some(7)
  {
    assert Bytes(4) == 256 * (256 * (256 * (256 * Bytes(0))));
    assert Bytes(8) == 256 * (256 * (256 * (256 * Bytes(4))));
  }
}
