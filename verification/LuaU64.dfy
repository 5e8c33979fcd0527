/**
 Unsigned 64-bit integers in Lua (bindings/lua/vinary_tree_lua_u64.h): the lower half as Lua
 integers, the upper half as decimal strings.
 */
module LuaU64 {
  import opened Interop

  /** A Lua integer is signed. */
  datatype LuaValue = Integer(i: int) | Text(s: string) | Other

  const BUFFER: nat := 32

  predicate IsDigit(c: char) {
    '0' <= c <= '9'
  }

  predicate AllDigits(s: string) {
    forall i :: 0 <= i < |s| ==> IsDigit(s[i])
  }

  /** The number a string of digits denotes, of any length. */
  function Denotes(s: string): nat
    requires AllDigits(s)
  {
    if s == "" then 0 else Denotes(s[..|s| - 1]) * 10 + (s[|s| - 1] as int - '0' as int)
  }

  /** A longer string of digits denotes no smaller number. */
  lemma {:induction false} DenotesGrows(s: string, i: nat)
    requires AllDigits(s) && i <= |s|
    ensures Denotes(s[..i]) <= Denotes(s)
  {
    if i < |s| {
      DenotesGrows(s[..|s| - 1], i);
      assert s[..|s| - 1][..i] == s[..i];
    } else {
      assert s[..i] == s;
    }
  }

  /** What the string branch is meant to accept. */
  predicate Acceptable(s: string) {
    s != "" && AllDigits(s) && Denotes(s) <= MAX_UINT64
  }

  /** Arithmetic in `uint64_t`. */
  function Wrap(x: nat): nat {
    x % (MAX_UINT64 + 1)
  }

  /** The digit loop; `fits` is the guard against overflow. */
  method ParseDecimal(s: string) returns (r: Option<nat>)
    ensures r == if Acceptable(s) then Some(Denotes(s)) else None
  {
    if |s| == 0 {
      return None;
    }
    var value: nat := 0;
    for position := 0 to |s|
      invariant AllDigits(s[..position]) && value == Denotes(s[..position]) <= MAX_UINT64
    {
      if !IsDigit(s[position]) {
        return None;
      }
      var digit := s[position] as int - '0' as int;
      var fits := value <= (MAX_UINT64 - digit) / 10;
      assert s[..position + 1][..position] == s[..position];
      if !fits {
        if AllDigits(s) {
          assert Denotes(s[..position + 1]) > MAX_UINT64;
          DenotesGrows(s, position + 1);
        }
        return None;
      }
      assert value * 10 + digit <= MAX_UINT64;
      value := Wrap(value * 10 + digit);
    }
    assert s[..|s|] == s;
    return Some(value);
  }

  /** `vt_lua_check_u64`. */
  method Check(v: LuaValue) returns (r: Option<nat>)
    ensures r == Checked(v)
    ensures v.Integer? ==> r == if v.i >= 0 then Some(v.i) else None
    ensures v.Text? ==>
              if v.s != "" && AllDigits(v.s) && Denotes(v.s) <= 0xffff_ffff_ffff_ffff
              then r == Some(Denotes(v.s)) else r == None
    ensures v.Other? ==> r == None
  {
    match v
    case Integer(i) =>
      return if i >= 0 then Some(i) else None;
    case Text(s) =>
      r := ParseDecimal(s);
    case Other =>
      return None;
  }

  function Checked(v: LuaValue): Option<nat> {
    match v
    case Integer(i) => if i >= 0 then Some(i) else None
    case Text(s) => if Acceptable(s) then Some(Denotes(s)) else None
    case Other => None
  }

  // ---------------------------------------------------------------- printing

  /** The `%" PRIu64 "` conversion: decimal digits without leading zeros. */
  function Decimal(value: nat): (s: string)
    ensures s != "" && AllDigits(s)
  {
    var digit := [((value % 10) + '0' as int) as char];
    if value < 10 then digit else Decimal(value / 10) + digit
  }

  function Pow10(k: nat): nat {
    if k == 0 then 1 else 10 * Pow10(k - 1)
  }

  lemma {:induction false} DecimalDenotes(value: nat)
    ensures Denotes(Decimal(value)) == value
  {
    var s := Decimal(value);
    if value >= 10 {
      DecimalDenotes(value / 10);
      assert s[..|s| - 1] == Decimal(value / 10);
    } else {
      assert s[..|s| - 1] == "";
    }
  }

  lemma {:induction false} NoLeadingZero(value: nat)
    requires value > 0
    ensures Decimal(value)[0] != '0'
  {
    if value >= 10 {
      NoLeadingZero(value / 10);
    }
  }

  lemma {:induction false} DecimalLength(value: nat, k: nat)
    requires value < Pow10(k) && k > 0
    ensures |Decimal(value)| <= k
  {
    if value >= 10 {
      assert Pow10(1) == 10;
      DecimalLength(value / 10, k - 1);
    }
  }

  function Pushed(value: nat): LuaValue {
    if value <= MAX_INT64 then Integer(value) else Text(Decimal(value))
  }

  /** `vt_lua_push_u64`; `None` is the formatting error, which cannot occur. */
  method Push(value: nat) returns (r: Option<LuaValue>)
    requires value <= MAX_UINT64
    ensures r == Some(Pushed(value))
    ensures value <= 0x7fff_ffff_ffff_ffff ==> r == Some(Integer(value))
    ensures value > 0x7fff_ffff_ffff_ffff ==>
              && r.value.Text? && AllDigits(r.value.s) && Denotes(r.value.s) == value
              && |r.value.s| <= 20 && r.value.s[0] != '0'
  {
    if value <= MAX_INT64 {
      return Some(Integer(value));
    }
    DecimalDenotes(value);
    NoLeadingZero(value);
    var decimal := Decimal(value);
    TwentyDigits(value);
    if |decimal| >= BUFFER {
      return None;
    }
    return Some(Text(decimal));
  }

  lemma TwentyDigits(value: nat)
    requires value <= MAX_UINT64
    ensures |Decimal(value)| <= 20
  {
    assert Pow10(4) == 10000;
    assert Pow10(8) == 10000 * Pow10(4);
    assert Pow10(12) == 10000 * Pow10(8);
    assert Pow10(16) == 10000 * Pow10(12);
    assert Pow10(20) == 10000 * Pow10(16);
    DecimalLength(value, 20);
  }

  /** Parsing what was pushed returns the same value, for every unsigned 64-bit integer. */
  lemma RoundTrip(value: nat)
    requires value <= MAX_UINT64
    ensures Checked(Pushed(value)) == Some(value)
  {
    DecimalDenotes(value);
  }

  /** A decimal text of any size that fits gives its number, with or without leading zeros. */
  lemma {:induction false} TextReads(value: nat, zeros: nat)
    requires value <= 0xffff_ffff_ffff_ffff
    ensures Checked(Text(Zeros(zeros) + Decimal(value))) == Some(value)
  {
    DecimalDenotes(value);
    ZerosDenote(zeros, Decimal(value));
  }

  function Zeros(k: nat): string {
    seq(k, i => '0')
  }

  lemma {:induction false} ZerosDenote(k: nat, s: string)
    requires AllDigits(s)
    ensures AllDigits(Zeros(k) + s) && Denotes(Zeros(k) + s) == Denotes(s)
    decreases |s|, k
  {
    var t := Zeros(k) + s;
    if s != "" {
      ZerosDenote(k, s[..|s| - 1]);
      assert t[..|t| - 1] == Zeros(k) + s[..|s| - 1];
    } else if k > 0 {
      ZerosDenote(k - 1, s);
      assert t[..|t| - 1] == Zeros(k - 1) + s;
    }
  }

  /** A text beyond the range, an empty one, or one with another character gives none, as other values do. */
  lemma OthersRefused(s: string, i: int)
    ensures s == "" || (exists k :: 0 <= k < |s| && !('0' <= s[k] <= '9')) ==> Checked(Text(s)) == None
    ensures AllDigits(s) && Denotes(s) > 0xffff_ffff_ffff_ffff ==> Checked(Text(s)) == None
    ensures Checked(Other) == None && Checked(Integer(i)) == if i < 0 then None else Some(i)
  {
  }

  /** Whatever is accepted can be pushed again and comes back; an integer even unchanged. */
  lemma AcceptedRoundTrips(v: LuaValue)
    requires Checked(v).Some? && (v.Integer? ==> v.i <= MAX_INT64)
    ensures Checked(v).value <= MAX_UINT64 && Checked(Pushed(Checked(v).value)) == Checked(v)
    ensures v.Integer? ==> Pushed(Checked(v).value) == v
  {
    RoundTrip(Checked(v).value);
  }

  /** Values that are pushed alike are equal. */
  lemma PushIsInjective(a: nat, b: nat)
    requires a <= MAX_UINT64 && b <= MAX_UINT64 && Pushed(a) == Pushed(b)
    ensures a == b
  {
    RoundTrip(a);
    RoundTrip(b);
  }
}
