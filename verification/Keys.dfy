/** Namespaced keys over bytes, with the UTF-8 validity of section 4 of RFC 3629. */
module Keys {
  import opened Leases

  const MAX_KEY_BYTES: nat := 256
  const SLASH: byte := 0x2f

  predicate Tail(s: Text, i: nat) {
    i < |s| && 0x80 <= s[i] <= 0xbf
  }

  predicate Second(s: Text, low: byte, high: byte) {
    1 < |s| && low <= s[1] <= high
  }

  /** The length of the well-formed encoding that starts the text, or 0 if there is none. */
  function FirstLength(s: Text): nat {
    if s == [] then 0
    else if s[0] <= 0x7f then 1
    else if 0xc2 <= s[0] <= 0xdf then (if Tail(s, 1) then 2 else 0)
    else if 0xe0 <= s[0] <= 0xef then
      var low: byte := if s[0] == 0xe0 then 0xa0 else 0x80;
      var high: byte := if s[0] == 0xed then 0x9f else 0xbf;
      if Second(s, low, high) && Tail(s, 2) then 3 else 0
    else if 0xf0 <= s[0] <= 0xf4 then
      var low: byte := if s[0] == 0xf0 then 0x90 else 0x80;
      var high: byte := if s[0] == 0xf4 then 0x8f else 0xbf;
      if Second(s, low, high) && Tail(s, 2) && Tail(s, 3) then 4 else 0
    else 0
  }

  predicate ValidUtf8(s: Text)
    decreases |s|
  {
    s == [] || (0 < FirstLength(s) <= |s| && ValidUtf8(s[FirstLength(s)..]))
  }

  /** A Unicode scalar value: a code point that is no surrogate. */
  predicate Scalar(c: int) {
    0 <= c <= 0x10_ffff && !(0xd800 <= c <= 0xdfff)
  }

  /** Six bits of a code point as a continuation byte. */
  function Continuation(bits: int): byte {
    (0x80 + bits % 64) as byte
  }

  /** The encoding of a scalar value, section 3 of RFC 3629. */
  function Encode(c: int): Text
    requires Scalar(c)
  {
    if c < 0x80 then [c as byte]
    else if c < 0x800 then [(0xc0 + c / 64) as byte, Continuation(c)]
    else if c < 0x1_0000 then [(0xe0 + c / 4096) as byte, Continuation(c / 64), Continuation(c)]
    else [(0xf0 + c / 262144) as byte, Continuation(c / 4096), Continuation(c / 64), Continuation(c)]
  }

  function EncodeAll(cs: seq<int>): Text
    requires forall i :: 0 <= i < |cs| ==> Scalar(cs[i])
  {
    if cs == [] then [] else Encode(cs[0]) + EncodeAll(cs[1..])
  }

  /** An encoding starts every text that begins with it. */
  lemma EncodesFirst(c: int, rest: Text)
    requires Scalar(c)
    ensures FirstLength(Encode(c) + rest) == |Encode(c)|
  {
    var s := Encode(c) + rest;
    assert forall i :: 0 <= i < |Encode(c)| ==> s[i] == Encode(c)[i];
  }

  /** The digits of a number to base 64. */
  lemma Digits(a: nat, b: nat, c: nat, d: nat)
    requires b < 64 && c < 64 && d < 64
    ensures var x := a * 262144 + b * 4096 + c * 64 + d;
            x / 262144 == a && x / 4096 % 64 == b && x / 64 % 64 == c && x % 64 == d
  {
    var x := a * 262144 + b * 4096 + c * 64 + d;
    assert x / 64 == a * 4096 + b * 64 + c;
    assert x / 4096 == a * 64 + b;
  }

  lemma DecodesTwo(s: Text) returns (c: int)
    requires FirstLength(s) == 2
    ensures |s| >= 2 && Scalar(c) && Encode(c) == s[..2]
  {
    var x, y := s[0] as int - 0xc0, s[1] as int - 0x80;
    c := x * 64 + y;
    assert c / 64 == x && c % 64 == y;
    assert Encode(c) == [s[0], s[1]];
  }

  lemma DecodesThree(s: Text) returns (c: int)
    requires FirstLength(s) == 3
    ensures |s| >= 3 && Scalar(c) && Encode(c) == s[..3]
  {
    var x, y, z := s[0] as int - 0xe0, s[1] as int - 0x80, s[2] as int - 0x80;
    c := x * 4096 + y * 64 + z;
    Digits(0, x, y, z);
    assert c / 4096 == x;
    assert Encode(c) == [s[0], s[1], s[2]];
  }

  lemma DecodesFour(s: Text) returns (c: int)
    requires FirstLength(s) == 4
    ensures |s| >= 4 && Scalar(c) && Encode(c) == s[..4]
  {
    var w, x, y, z := s[0] as int - 0xf0, s[1] as int - 0x80, s[2] as int - 0x80, s[3] as int - 0x80;
    c := w * 262144 + x * 4096 + y * 64 + z;
    Digits(w, x, y, z);
    assert Encode(c) == [s[0], s[1], s[2], s[3]];
  }

  /** What starts a text is an encoding. */
  lemma DecodesFirst(s: Text) returns (c: int)
    requires 0 < FirstLength(s)
    ensures FirstLength(s) <= |s| && Scalar(c) && Encode(c) == s[..FirstLength(s)]
  {
    var n := FirstLength(s);
    if n == 1 {
      c := s[0] as int;
      assert Encode(c) == [s[0]];
    } else if n == 2 {
      c := DecodesTwo(s);
    } else if n == 3 {
      c := DecodesThree(s);
    } else {
      c := DecodesFour(s);
    }
  }

  /** Valid texts are exactly the encodings of sequences of scalar values. */
  lemma {:induction false} ValidIsEncoded(s: Text)
    ensures ValidUtf8(s) <==>
            exists cs: seq<int> :: (forall i :: 0 <= i < |cs| ==> Scalar(cs[i])) && EncodeAll(cs) == s
  {
    if ValidUtf8(s) {
      var cs := DecodesAll(s);
    }
    forall cs: seq<int> | (forall i :: 0 <= i < |cs| ==> Scalar(cs[i])) && EncodeAll(cs) == s
      ensures ValidUtf8(s)
    {
      EncodedIsValid(cs);
    }
  }

  lemma {:induction false} DecodesAll(s: Text) returns (cs: seq<int>)
    requires ValidUtf8(s)
    ensures (forall i :: 0 <= i < |cs| ==> Scalar(cs[i])) && EncodeAll(cs) == s
    decreases |s|
  {
    cs := [];
    if s != [] {
      var c := DecodesFirst(s);
      var rest := DecodesAll(s[FirstLength(s)..]);
      cs := [c] + rest;
      assert cs[1..] == rest && s == s[..FirstLength(s)] + s[FirstLength(s)..];
    }
  }

  lemma {:induction false} EncodedIsValid(cs: seq<int>)
    requires forall i :: 0 <= i < |cs| ==> Scalar(cs[i])
    ensures ValidUtf8(EncodeAll(cs))
  {
    if cs != [] {
      var rest := EncodeAll(cs[1..]);
      EncodedIsValid(cs[1..]);
      EncodesFirst(cs[0], rest);
      assert (Encode(cs[0]) + rest)[|Encode(cs[0])|..] == rest;
    }
  }

  predicate Forbidden(b: byte) {
    b == 0x00 || b == 0x0d || b == 0x0a
  }

  predicate Clean(s: Text) {
    forall i :: 0 <= i < |s| ==> !Forbidden(s[i])
  }

  predicate ValidSegment(s: Text) {
    s != [] && ValidUtf8(s) && Clean(s)
  }

  datatype Key = Key(value: Text)

  function NewKey(namespace: Text, name: Text): Result<Key> {
    var value := namespace + [SLASH] + name;
    if !ValidSegment(namespace) || !ValidSegment(name) || |value| > MAX_KEY_BYTES then Err({InvalidState})
    else Ok(Key(value))
  }

  /** The first slash, or the length if there is none. */
  function FirstSlash(s: Text): (i: nat)
    ensures i <= |s| && (i < |s| ==> s[i] == SLASH) && SLASH !in s[..i]
  {
    if s == [] || s[0] == SLASH then 0
    else
      var i := FirstSlash(s[1..]) + 1;
      assert s[..i] == [s[0]] + s[1..][..i - 1];
      i
  }

  function ParseKey(value: Text): Result<Key> {
    var i := FirstSlash(value);
    if i == |value| then Err({InvalidState}) else NewKey(value[..i], value[i + 1..])
  }

  /** An encoding never spans a slash. */
  lemma FirstLengthAtSlash(a: Text, b: Text)
    requires a != []
    ensures FirstLength(a + [SLASH] + b) == FirstLength(a) || (FirstLength(a) == 0 && FirstLength(a + [SLASH] + b) == 0)
    ensures FirstLength(a) <= |a|
  {
    var t := a + [SLASH] + b;
    assert t[0] == a[0] && t[|a|] == SLASH;
    assert forall i :: 0 <= i < |a| ==> t[i] == a[i];
  }

  /** Validity survives cutting and joining at a slash. */
  lemma {:induction false} ValidAcrossSlash(a: Text, b: Text)
    ensures ValidUtf8(a + [SLASH] + b) <==> ValidUtf8(a) && ValidUtf8(b)
    decreases |a|
  {
    var t := a + [SLASH] + b;
    if a == [] {
      assert t[0] == SLASH && t[1..] == b;
    } else {
      FirstLengthAtSlash(a, b);
      var n := FirstLength(a);
      if 0 < n {
        assert t[n..] == a[n..] + [SLASH] + b;
        ValidAcrossSlash(a[n..], b);
      }
    }
  }

  lemma CleanAcrossSlash(a: Text, b: Text)
    ensures Clean(a + [SLASH] + b) <==> Clean(a) && Clean(b)
  {
    var t := a + [SLASH] + b;
    assert forall j :: 0 <= j < |a| ==> a[j] == t[j];
    assert forall j :: 0 <= j < |b| ==> b[j] == t[|a| + 1 + j];
    assert forall j :: 0 <= j < |t| ==> t[j] == if j < |a| then a[j] else if j == |a| then SLASH else b[j - |a| - 1];
  }

  /** Text that is acceptable as a whole key, without reference to how it is cut. */
  predicate Acceptable(value: Text) {
    && ValidUtf8(value) && Clean(value) && |value| <= MAX_KEY_BYTES
    && 0 < FirstSlash(value) < |value| - 1
  }

  /** Parsing accepts exactly the clean valid texts whose first slash is neither first nor last, and
      keeps their bytes. */
  lemma ParseExact(value: Text)
    ensures ParseKey(value) == if Acceptable(value) then Ok(Key(value)) else Err({InvalidState})
  {
    var i := FirstSlash(value);
    if i < |value| {
      var a, b := value[..i], value[i + 1..];
      assert value == a + [SLASH] + b;
      ValidAcrossSlash(a, b);
      CleanAcrossSlash(a, b);
    }
  }

  /** A key is constructed exactly from two nonempty parts whose joined text is valid, short and without
      NUL, CR and LF. */
  lemma NewKeyExact(namespace: Text, name: Text)
    ensures var value := namespace + [SLASH] + name;
            NewKey(namespace, name) ==
            if && namespace != [] && name != [] && ValidUtf8(value) && |value| <= MAX_KEY_BYTES
               && 0x00 !in value && 0x0a !in value && 0x0d !in value
            then Ok(Key(value)) else Err({InvalidState})
  {
    ValidAcrossSlash(namespace, name);
    CleanAcrossSlash(namespace, name);
  }

  lemma JoinedSlash(namespace: Text, name: Text)
    requires namespace != []
    ensures var f := FirstSlash(namespace + [SLASH] + name); f <= |namespace| && (f == 0 <==> namespace[0] == SLASH)
  {
    var value := namespace + [SLASH] + name;
    var f := FirstSlash(value);
    assert value[0] == namespace[0] && value[|namespace|] == SLASH;
    if f > 0 {
      assert value[..f][0] != SLASH;
    }
  }

  /** Parsing the text of a constructed key returns that key exactly when the namespace does not
      start with a slash. */
  lemma RoundTrip(namespace: Text, name: Text)
    requires NewKey(namespace, name).Ok?
    ensures ParseKey(NewKey(namespace, name).value.value) == NewKey(namespace, name) <==> namespace[0] != SLASH
  {
    ParseExact(namespace + [SLASH] + name);
    ValidAcrossSlash(namespace, name);
    CleanAcrossSlash(namespace, name);
    JoinedSlash(namespace, name);
  }
}
