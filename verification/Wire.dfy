/** Little-endian integers and the bounded reader of an artifact. */
module Wire {
  import opened Wrappers
  import opened Text

  function Pow256(w: nat): (p: nat)
    ensures p > 0
  {
    if w == 0 then 1 else 256 * Pow256(w - 1)
  }

  /** The `w` low bytes of `n`, least significant first. */
  function LE(n: nat, w: nat): (s: seq<Byte>)
    ensures |s| == w
  {
    if w == 0 then [] else [n % 256] + LE(n / 256, w - 1)
  }

  function UnLE(s: seq<Byte>): nat {
    if s == [] then 0 else s[0] + 256 * UnLE(s[1..])
  }

  lemma {:induction false} LERoundTrip(n: nat, w: nat)
    requires n < Pow256(w)
    ensures UnLE(LE(n, w)) == n
  {
    if w > 0 {
      LERoundTrip(n / 256, w - 1);
      assert LE(n, w)[1..] == LE(n / 256, w - 1);
    }
  }

  lemma {:induction false} UnLERoundTrip(s: seq<Byte>)
    ensures UnLE(s) < Pow256(|s|) && LE(UnLE(s), |s|) == s
  {
    if s != [] {
      UnLERoundTrip(s[1..]);
      assert UnLE(s) / 256 == UnLE(s[1..]) && UnLE(s) % 256 == s[0];
    }
  }

  /** Four and eight bytes by their place values. */
  lemma PlaceValues(b: seq<Byte>)
    ensures |b| == 4 ==> UnLE(b) == b[0] as int + b[1] as int * 256 + b[2] as int * 0x1_0000 + b[3] as int * 0x100_0000
    ensures |b| == 8 ==> UnLE(b) == UnLE(b[..4]) + 0x1_0000_0000 * UnLE(b[4..])
  {
    if |b| == 4 {
      Nested(b);
    } else if |b| == 8 {
      Nested(b[..4]);
      assert b[1..][1..][1..][1..] == b[4..];
      assert UnLE(b) == b[0] + 256 * UnLE(b[1..]);
      assert UnLE(b[1..]) == b[1] + 256 * UnLE(b[1..][1..]);
      assert UnLE(b[1..][1..]) == b[2] + 256 * UnLE(b[1..][1..][1..]);
      assert UnLE(b[1..][1..][1..]) == b[3] + 256 * UnLE(b[4..]);
    }
  }

  lemma Nested(b: seq<Byte>)
    requires |b| == 4
    ensures UnLE(b) == b[0] as int + b[1] as int * 256 + b[2] as int * 0x1_0000 + b[3] as int * 0x100_0000
  {
    assert UnLE(b) == b[0] + 256 * UnLE(b[1..]);
    assert UnLE(b[1..]) == b[1] + 256 * UnLE(b[1..][1..]);
    assert UnLE(b[1..][1..]) == b[2] + 256 * UnLE(b[1..][1..][1..]);
    assert UnLE(b[1..][1..][1..]) == b[3] + 256 * UnLE([]);
  }

  /** A cursor over saved bytes that never reads past their end. */
  class Reader {
    const bytes: seq<Byte>
    var position: nat

    ghost predicate Valid()
      reads this
    {
      position <= |bytes|
    }

    constructor (bytes: seq<Byte>)
      ensures Valid() && this.bytes == bytes && position == 0
    {
      this.bytes := bytes;
      position := 0;
    }

    method Take(count: nat) returns (r: Option<seq<Byte>>)
      requires Valid()
      modifies this
      ensures Valid()
      ensures old(position) + count <= |bytes| ==>
                r == Some(bytes[old(position)..old(position) + count]) && position == old(position) + count
      ensures old(position) + count > |bytes| ==> r == None && position == old(position)
    {
      if position + count > |bytes| { return None; }
      r := Some(bytes[position..position + count]);
      position := position + count;
    }

    method TakeNat(width: nat) returns (r: Option<nat>)
      requires Valid()
      modifies this
      ensures Valid()
      ensures old(position) + width <= |bytes| ==>
                && position == old(position) + width
                && r.Some? && bytes[old(position)..position] == LE(r.value, width) && r.value < Pow256(width)
      ensures old(position) + width > |bytes| ==> r == None && position == old(position)
    {
      var taken := Take(width);
      if taken.None? { return None; }
      UnLERoundTrip(taken.value);
      return Some(UnLE(taken.value));
    }

    method TakeBool() returns (r: Option<bool>)
      requires Valid()
      modifies this
      ensures Valid()
      ensures r.Some? ==> position == old(position) + 1 <= |bytes|
                          && bytes[old(position)] == (if r.value then 1 else 0)
      ensures r.None? ==> old(position) == |bytes| || bytes[old(position)] > 1
    {
      var taken := Take(1);
      if taken.None? { return None; }
      if taken.value == [0] { return Some(false); }
      if taken.value == [1] { return Some(true); }
      return None;
    }
  }
}
