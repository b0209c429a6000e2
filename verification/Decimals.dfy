/** Decimal text as Go's strconv and the Valkey server write and read it. */
module Decimals {
  import opened Leases

  const ZERO: byte := 0x30
  const PLUS: byte := 0x2b
  const MINUS: byte := 0x2d

  function Format(n: nat): Text {
    if n < 10 then [ZERO + n as byte] else Format(n / 10) + [ZERO + (n % 10) as byte]
  }

  predicate IsDigit(b: byte) {
    ZERO <= b < ZERO + 10
  }

  function DigitOf(b: byte): nat
    requires IsDigit(b)
  {
    (b - ZERO) as nat
  }

  predicate Digits(t: Text) {
    t != [] && forall i :: 0 <= i < |t| ==> IsDigit(t[i])
  }

  function Value(t: Text): nat
    requires forall i :: 0 <= i < |t| ==> IsDigit(t[i])
  {
    if t == [] then 0 else Value(t[..|t| - 1]) * 10 + DigitOf(t[|t| - 1])
  }

  /** strconv.ParseUint in base 10 with the given upper bound. */
  function ParseUint(t: Text, max: nat): Option<nat> {
    if Digits(t) && Value(t) <= max then Some(Value(t)) else None
  }

  function FormatInt(i: int): Text {
    if i < 0 then [MINUS] + Format(-i) else Format(i)
  }

  /** strconv.ParseInt in base 10 for 64 bits. */
  function ParseInt(t: Text): Option<int> {
    if t == [] then None
    else if t[0] == MINUS then
      var m := ParseUint(t[1..], MAX_INT64 + 1);
      if m.Some? then Some(0 - m.value as int) else None
    else
      ParseUint(if t[0] == PLUS then t[1..] else t, MAX_INT64)
  }

  lemma {:induction false} FormatIsDigits(n: nat)
    ensures Digits(Format(n)) && Value(Format(n)) == n
  {
    if n >= 10 {
      FormatIsDigits(n / 10);
      assert Format(n)[..|Format(n)| - 1] == Format(n / 10);
    } else {
      assert Format(n)[..0] == [];
    }
  }

  /** Decimal text determines the number, so comparing texts is comparing numbers. */
  lemma FormatInjective(a: nat, b: nat)
    requires Format(a) == Format(b)
    ensures a == b
  {
    FormatIsDigits(a);
    FormatIsDigits(b);
  }

  lemma ParseUintExact(n: nat, max: nat)
    ensures ParseUint(Format(n), max) == if n <= max then Some(n) else None
  {
    FormatIsDigits(n);
  }

  lemma NegativeExact(n: nat)
    requires 0 < n
    ensures ParseInt([MINUS] + Format(n)) == if n <= MAX_INT64 + 1 then Some(0 - n) else None
  {
    var t := [MINUS] + Format(n);
    assert t[1..] == Format(n);
    FormatIsDigits(n);
    assert t[0] == MINUS && !IsDigit(t[0]);
  }

  lemma PositiveExact(n: nat)
    ensures ParseInt(Format(n)) == if n <= MAX_INT64 then Some(n) else None
  {
    FormatIsDigits(n);
    assert IsDigit(Format(n)[0]);
  }

  lemma ParseIntExact(i: int)
    ensures ParseInt(FormatInt(i)) == if -MAX_INT64 - 1 <= i <= MAX_INT64 then Some(i) else None
  {
    if i < 0 {
      var n: nat := -i;
      NegativeExact(n);
      assert FormatInt(i) == [MINUS] + Format(n);
    } else {
      PositiveExact(i);
    }
  }

  /** Any digits are the decimal text of their value after some leading zeros. */
  lemma {:induction false} LeadingZeros(t: Text) returns (zeros: nat)
    requires Digits(t)
    ensures zeros < |t| && t[zeros..] == Format(Value(t)) && forall i :: 0 <= i < zeros ==> t[i] == ZERO
  {
    var last := |t| - 1;
    if last == 0 {
      assert t[..0] == [];
      return 0;
    }
    var init := t[..last];
    zeros := LeadingZeros(init);
    if Value(init) == 0 {
      assert forall i :: zeros <= i < last ==> t[i] == init[zeros..][i - zeros];
      return last;
    }
    assert t[zeros..] == init[zeros..] + [t[last]];
  }

  /** The text is the decimal text of the number after this many leading zeros. */
  predicate Padded(t: Text, zeros: int, n: nat) {
    0 <= zeros <= |t| && (forall i :: 0 <= i < zeros ==> t[i] == ZERO) && t[zeros..] == Format(n)
  }

  /** Unsigned parsing accepts exactly the decimal texts of numbers within the bound, with leading zeros
      or without. */
  lemma ParseUintAccepts(t: Text, max: nat, n: nat)
    ensures ParseUint(t, max) == Some(n) <==> n <= max && exists zeros :: Padded(t, zeros, n)
  {
    if ParseUint(t, max) == Some(n) {
      var zeros := LeadingZeros(t);
      assert Padded(t, zeros, n);
    }
    forall zeros | Padded(t, zeros, n)
      ensures Digits(t) && Value(t) == n
    {
      ZerosCount(t, zeros, n);
    }
  }

  lemma {:induction false} ZerosCount(t: Text, zeros: nat, n: nat)
    requires Padded(t, zeros, n)
    ensures Digits(t) && Value(t) == n
    decreases |t|
  {
    FormatIsDigits(n);
    assert forall i :: zeros <= i < |t| ==> t[i] == t[zeros..][i - zeros];
    var last := |t| - 1;
    if n < 10 {
      AllZeros(t[..last]);
    } else {
      assert t[..last][zeros..] == Format(n / 10);
      ZerosCount(t[..last], zeros, n / 10);
    }
  }

  lemma {:induction false} AllZeros(t: Text)
    requires forall i :: 0 <= i < |t| ==> t[i] == ZERO
    ensures Value(t) == 0
  {
    if t != [] {
      AllZeros(t[..|t| - 1]);
    }
  }

  /** Signed parsing accepts digits with or without one sign, and nothing else: a plus changes nothing, and
      a minus negates, one further down than up. */
  lemma ParseIntSigns(t: Text)
    ensures ParseInt(t).Some? ==> Digits(t) || (t != [] && t[0] in {PLUS, MINUS} && Digits(t[1..]))
    ensures Digits(t) ==>
              && ParseInt(t) == (if Value(t) <= MAX_INT64 then Some(Value(t)) else None)
              && ParseInt([PLUS] + t) == ParseInt(t)
              && ParseInt([MINUS] + t) == (if Value(t) <= MAX_INT64 + 1 then Some(0 - Value(t)) else None)
  {
    if Digits(t) {
      assert ([PLUS] + t)[1..] == t && ([MINUS] + t)[1..] == t;
      assert IsDigit(t[0]);
    }
  }
}
