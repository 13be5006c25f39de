/** UTF-8 byte strings (section 4 of RFC 3629): validity, scalar lengths and
    scalar boundaries. */
module Text {

  type Byte = b: int | 0 <= b < 256

  predicate IsTail(b: Byte) {
    0x80 <= b <= 0xBF
  }

  predicate TailAt(t: seq<Byte>, i: nat) {
    i < |t| && IsTail(t[i])
  }

  /** The range of the second byte that a leading byte permits. */
  predicate SecondOk(lead: Byte, second: Byte) {
    if lead == 0xE0 then 0xA0 <= second <= 0xBF
    else if lead == 0xED then 0x80 <= second <= 0x9F
    else if lead == 0xF0 then 0x90 <= second <= 0xBF
    else if lead == 0xF4 then 0x80 <= second <= 0x8F
    else IsTail(second)
  }

  /** Bytes a leading byte announces; zero for a byte that cannot lead. */
  function LeadLen(lead: Byte): (n: nat)
    ensures n <= 4 && (n > 0 ==> !IsTail(lead))
  {
    if lead < 0x80 then 1
    else if 0xC2 <= lead <= 0xDF then 2
    else if 0xE0 <= lead <= 0xEF then 3
    else if 0xF0 <= lead <= 0xF4 then 4
    else 0
  }

  /** Length of the scalar encoded at `i`, or zero when there is none. */
  function ScalarLen(t: seq<Byte>, i: nat): (n: nat)
    requires i < |t|
    ensures n > 0 ==> n == LeadLen(t[i]) && i + n <= |t| && forall k :: i < k < i + n ==> IsTail(t[k])
  {
    var n := LeadLen(t[i]);
    if n >= 2 && !(i + 1 < |t| && SecondOk(t[i], t[i + 1])) then 0
    else if n >= 3 && !TailAt(t, i + 2) then 0
    else if n >= 4 && !TailAt(t, i + 3) then 0
    else n
  }

  /** Whether the rest of the text is a sequence of whole scalars. */
  predicate ValidFrom(t: seq<Byte>, i: nat)
    requires i <= |t|
    decreases |t| - i
  {
    i == |t| || (ScalarLen(t, i) > 0 && ValidFrom(t, i + ScalarLen(t, i)))
  }

  predicate Valid(t: seq<Byte>) {
    ValidFrom(t, 0)
  }

  /** The boundary test made on one position: an end of the text or a byte
      that does not continue a scalar. */
  predicate Boundary(t: seq<Byte>, i: nat) {
    i == 0 || i == |t| || (i < |t| && !IsTail(t[i]))
  }

  /** In valid text the local test finds exactly the scalar starts. */
  lemma BoundaryIsScalarStart(t: seq<Byte>, i: nat)
    requires Valid(t) && i <= |t|
    ensures Boundary(t, i) <==> ValidFrom(t, i)
  {
    WalkTo(t, 0, i);
  }

  lemma {:induction false} WalkTo(t: seq<Byte>, from: nat, i: nat)
    requires from <= i <= |t| && ValidFrom(t, from) && (from == 0 || Boundary(t, from))
    ensures Boundary(t, i) <==> ValidFrom(t, i)
    decreases i - from
  {
    if from < i {
      var n := ScalarLen(t, from);
      if from + n <= i {
        assert from + n == |t| || ScalarLen(t, from + n) > 0;
        WalkTo(t, from + n, i);
      } else {
        assert IsTail(t[i]);
        assert i < |t| && LeadLen(t[i]) == 0;
      }
    }
  }

  /** The scalar at a boundary ends at the next boundary. */
  lemma NextBoundary(t: seq<Byte>, i: nat)
    requires Valid(t) && i < |t| && Boundary(t, i)
    ensures var n := ScalarLen(t, i);
            && 0 < n <= 4 && i + n <= |t| && Boundary(t, i + n)
            && (forall k :: i < k < i + n ==> !Boundary(t, k))
  {
    BoundaryIsScalarStart(t, i);
    BoundaryIsScalarStart(t, i + ScalarLen(t, i));
  }

  /** An ASCII byte is a whole scalar, so a boundary follows it. */
  lemma AfterAscii(t: seq<Byte>, i: nat)
    requires Valid(t) && i < |t| && t[i] < 0x80
    ensures Boundary(t, i) && Boundary(t, i + 1)
  {
    NextBoundary(t, i);
  }

  // ------------------------------------------------- scalars and their bytes

  /** A Unicode scalar value: a code point that is no surrogate. */
  predicate IsScalar(c: nat) {
    c < 0xD800 || 0xE000 <= c < 0x11_0000
  }

  /** The bytes of one scalar (section 3 of RFC 3629). */
  function Encoded(c: nat): (s: seq<Byte>)
    requires IsScalar(c)
    ensures 1 <= |s| <= 4
  {
    if c < 0x80 then [c]
    else if c < 0x800 then [0xC0 + c / 64, 0x80 + c % 64]
    else if c < 0x1_0000 then [0xE0 + c / 64 / 64, 0x80 + c / 64 % 64, 0x80 + c % 64]
    else [0xF0 + c / 64 / 64 / 64, 0x80 + c / 64 / 64 % 64, 0x80 + c / 64 % 64, 0x80 + c % 64]
  }

  function EncodedAll(cs: seq<nat>): seq<Byte>
    requires forall c :: c in cs ==> IsScalar(c)
  {
    if cs == [] then [] else Encoded(cs[0]) + EncodedAll(cs[1..])
  }

  /** What follows the lead bits of a scalar of two, three or four bytes. */
  function Joined(high: int, low: Byte): int {
    high * 64 + (low as int - 0x80)
  }

  /** The scalar whose bytes stand at `i`. */
  function ScalarAt(t: seq<Byte>, i: nat): int
    requires i < |t| && ScalarLen(t, i) > 0
  {
    var n, lead := ScalarLen(t, i), t[i] as int;
    if n == 1 then lead
    else if n == 2 then Joined(lead - 0xC0, t[i + 1])
    else if n == 3 then Joined(Joined(lead - 0xE0, t[i + 1]), t[i + 2])
    else Joined(Joined(Joined(lead - 0xF0, t[i + 1]), t[i + 2]), t[i + 3])
  }

  lemma Divided(high: int, low: Byte)
    requires IsTail(low)
    ensures Joined(high, low) / 64 == high && 0x80 + Joined(high, low) % 64 == low
  {
  }

  lemma ScalarReads(t: seq<Byte>, i: nat)
    requires i < |t| && ScalarLen(t, i) > 0
    ensures var c := ScalarAt(t, i);
            c >= 0 && IsScalar(c) && |Encoded(c)| == ScalarLen(t, i) && t[i..i + ScalarLen(t, i)] == Encoded(c)
  {
    var n := ScalarLen(t, i);
    if n == 2 {
      Divided(t[i] as int - 0xC0, t[i + 1]);
    } else if n == 3 {
      var high := Joined(t[i] as int - 0xE0, t[i + 1]);
      Divided(t[i] as int - 0xE0, t[i + 1]);
      Divided(high, t[i + 2]);
    } else if n == 4 {
      var first := Joined(t[i] as int - 0xF0, t[i + 1]);
      var high := Joined(first, t[i + 2]);
      Divided(t[i] as int - 0xF0, t[i + 1]);
      Divided(first, t[i + 2]);
      Divided(high, t[i + 3]);
    }
  }

  lemma Rejoined(c: nat)
    ensures Joined(c / 64, 0x80 + c % 64) == c
  {
  }

  lemma EncodedReads(t: seq<Byte>, i: nat, c: nat)
    requires IsScalar(c) && i + |Encoded(c)| <= |t| && t[i..i + |Encoded(c)|] == Encoded(c)
    ensures ScalarLen(t, i) == |Encoded(c)| && ScalarAt(t, i) == c
  {
    var s := t[i..i + |Encoded(c)|];
    assert forall k :: 0 <= k < |s| ==> t[i + k] == s[k];
    Rejoined(c);
    Rejoined(c / 64);
    Rejoined(c / 64 / 64);
    hide Joined;
  }

  lemma {:induction false} ScalarsFrom(t: seq<Byte>, i: nat) returns (cs: seq<nat>)
    requires i <= |t| && ValidFrom(t, i)
    ensures (forall c :: c in cs ==> IsScalar(c)) && EncodedAll(cs) == t[i..]
    decreases |t| - i
  {
    if i == |t| {
      cs := [];
    } else {
      ScalarReads(t, i);
      hide Encoded, ScalarAt;
      var rest := ScalarsFrom(t, i + ScalarLen(t, i));
      cs := [ScalarAt(t, i)] + rest;
      assert t[i..] == t[i..i + ScalarLen(t, i)] + t[i + ScalarLen(t, i)..];
    }
  }

  lemma Cut(t: seq<Byte>, i: nat, first: seq<Byte>, rest: seq<Byte>)
    requires i <= |t| && t[i..] == first + rest
    ensures i + |first| <= |t| && t[i..i + |first|] == first && t[i + |first|..] == rest
  {
    assert t[i..i + |first|] == t[i..][..|first|] && t[i + |first|..] == t[i..][|first|..];
  }

  lemma {:induction false} EncodedIsValid(t: seq<Byte>, i: nat, cs: seq<nat>)
    requires i <= |t| && (forall c :: c in cs ==> IsScalar(c)) && t[i..] == EncodedAll(cs)
    ensures ValidFrom(t, i)
    decreases |cs|
  {
    hide Encoded, ScalarLen, ScalarAt;
    if cs != [] {
      Cut(t, i, Encoded(cs[0]), EncodedAll(cs[1..]));
      EncodedReads(t, i, cs[0]);
      EncodedIsValid(t, i + |Encoded(cs[0])|, cs[1..]);
    }
  }

  /** Bytes are valid exactly when they encode some scalars. */
  lemma ValidIsEncoded(t: seq<Byte>)
    ensures Valid(t) <==> exists cs: seq<nat> :: (forall c :: c in cs ==> IsScalar(c)) && EncodedAll(cs) == t
  {
    if Valid(t) {
      var cs := ScalarsFrom(t, 0);
      assert t[0..] == t;
    }
    if cs: seq<nat> :| (forall c :: c in cs ==> IsScalar(c)) && EncodedAll(cs) == t {
      assert t[0..] == t;
      EncodedIsValid(t, 0, cs);
    }
  }
}
